/** firmware/host-driver/driver/smarteth_main.c: receive-buffer management, ring configuration, transmit
    posting and the interrupt handler. The kernel's allocators are the Kernel class, which may fail at
    any call. */
module Driver {
  import opened Bits
  import opened GuestMemory
  import opened Protocol
  import opened DmaPath
  import opened DmaEngine
  import opened RegisterBlock
  import opened Rings
  import opened RingMemory
  import opened SmartNic
  import opened Interrupts
  import opened RxDelivery
  import opened Sequences

  const RING_SIZE := 64
  const RX_BUF_SIZE: u32 := 2048

  /** A call into the kernel and its outcome. */
  datatype Call = Alloc(p: nat) | Map(p: nat, ok: bool) | Unmap(dma: u64) | Free(p: nat)

  predicate Refused(c: Call) { c == Alloc(0) || (c.Map? && !c.ok) }

  /** Was any of the calls refused? */
  predicate AnyRefused(calls: seq<Call>) { exists i :: 0 <= i < |calls| && Refused(calls[i]) }

  /** Heap buffers by address (0 is NULL) and streaming DMA mappings. Which allocations and mappings succeed
      is up to the kernel. */
  class Kernel {
    var live: set<nat>
    var mapped: map<u64, nat>   // DMA address to buffer
    var calls: seq<Call>        // what has been asked and answered so far
    const coherent: u64         // the coherent allocation holding the receive ring

    constructor (coherent: u64)
      ensures Valid() && live == {} && mapped == map[] && calls == [] && this.coherent == coherent
    {
      live, mapped, calls, this.coherent := {}, map[], [], coherent;
    }

    ghost predicate Valid()
      reads this
    {
      0 !in live && forall d :: d in mapped ==> mapped[d] in live
    }

    method Kmalloc() returns (p: nat)
      requires Valid()
      modifies this`live, this`calls
      ensures Valid() && (p == 0 ==> live == old(live)) && calls == old(calls) + [Alloc(p)]
      ensures p != 0 ==> p !in old(live) && live == old(live) + {p}
    {
      p := *;
      if p in live { p := 0; }
      if p != 0 { live := live + {p}; }
      calls := calls + [Alloc(p)];
    }

    method Kfree(p: nat)
      requires Valid() && p in live && forall d :: d in mapped ==> mapped[d] != p
      modifies this`live, this`calls
      ensures Valid() && live == old(live) - {p} && calls == old(calls) + [Free(p)]
    {
      live := live - {p};
      calls := calls + [Free(p)];
    }

    /** May fail; an address it does return overlaps neither another mapping nor the coherent memory. */
    method DmaMapSingle(p: nat) returns (ok: bool, dma: u64)
      requires Valid() && p in live
      modifies this`mapped, this`calls
      ensures Valid() && (!ok ==> mapped == old(mapped)) && calls == old(calls) + [Map(p, ok)]
      ensures ok ==> mapped == old(mapped)[dma := p] && Clear(dma, old(mapped), coherent)
    {
      dma := *;
      ok := *;
      if !Clear(dma, mapped, coherent) { ok := false; }
      if ok { mapped := mapped[dma := p]; }
      calls := calls + [Map(p, ok)];
    }

    method DmaUnmapSingle(dma: u64)
      requires Valid() && dma in mapped
      modifies this`mapped, this`calls
      ensures Valid() && mapped == old(mapped) - {dma} && calls == old(calls) + [Unmap(dma)]
    {
      mapped := mapped - {dma};
      calls := calls + [Unmap(dma)];
    }
  }

  predicate Clear(dma: u64, mapped: map<u64, nat>, ring: u64) {
    && Disjoint(dma, RX_BUF_SIZE, ring, RING_SIZE * DESC_BYTES)
    && forall d :: d in mapped.Keys ==> Disjoint(d, RX_BUF_SIZE, dma, RX_BUF_SIZE)
  }

  /** The buffers and mappings the slots hold. */
  function Buffers(bufs: seq<nat>): set<nat> { set i | 0 <= i < |bufs| && bufs[i] != 0 :: bufs[i] }

  function Mappings(bufs: seq<nat>, dmas: seq<u64>): set<u64>
    requires |dmas| == |bufs|
  {
    set i | 0 <= i < |bufs| && bufs[i] != 0 :: dmas[i]
  }

  /** A slot with a buffer has it allocated and mapped, once, and shares neither with another slot. */
  ghost predicate Balanced(bufs: seq<nat>, dmas: seq<u64>, live: set<nat>, mapped: map<u64, nat>)
    requires |dmas| == |bufs|
  {
    && (forall i :: 0 <= i < |bufs| && bufs[i] != 0 ==>
          bufs[i] in live && dmas[i] in mapped && mapped[dmas[i]] == bufs[i])
    && (forall i, d :: 0 <= i < |bufs| && bufs[i] != 0 && d in mapped && mapped[d] == bufs[i] ==> d == dmas[i])
    && (forall i, j :: 0 <= i < j < |bufs| && bufs[i] != 0 && bufs[j] != 0 ==> bufs[i] != bufs[j] && dmas[i] != dmas[j])
  }

  /** The buffers and mappings in use are the earlier ones and, disjoint from them, those of the slots. */
  ghost predicate Accounted(bufs: seq<nat>, dmas: seq<u64>, live: set<nat>, mapped: map<u64, nat>,
                            live0: set<nat>, mapped0: map<u64, nat>)
    requires |dmas| == |bufs|
  {
    && live == live0 + Buffers(bufs) && live0 !! Buffers(bufs)
    && mapped.Keys == mapped0.Keys + Mappings(bufs, dmas) && mapped0.Keys !! Mappings(bufs, dmas)
    && (forall d :: d in mapped0 ==> d in mapped && mapped[d] == mapped0[d])
  }

  /** Slots below n have a buffer, the others none, and everything is accounted for. */
  ghost predicate SlotsInUse(bufs: seq<nat>, dmas: seq<u64>, live: set<nat>, mapped: map<u64, nat>,
                         live0: set<nat>, mapped0: map<u64, nat>, n: nat)
    requires |dmas| == |bufs|
  {
    && (forall i :: 0 <= i < |bufs| ==> (bufs[i] != 0 <==> i < n))
    && Balanced(bufs, dmas, live, mapped)
    && Accounted(bufs, dmas, live, mapped, live0, mapped0)
  }

  lemma BuffersGrow(bufs: seq<nat>, dmas: seq<u64>, n: nat, p: nat, dma: u64)
    requires |dmas| == |bufs| && n < |bufs| && p != 0 && bufs[n] == 0
    ensures Buffers(bufs[n := p]) == Buffers(bufs) + {p}
    ensures Mappings(bufs[n := p], dmas[n := dma]) == Mappings(bufs, dmas) + {dma}
  {
    var bufs', dmas' := bufs[n := p], dmas[n := dma];
    assert bufs'[n] in Buffers(bufs') && dmas'[n] in Mappings(bufs', dmas');
    forall b | b in Buffers(bufs) ensures b in Buffers(bufs') {
      var i :| 0 <= i < |bufs| && bufs[i] != 0 && bufs[i] == b;
      assert bufs'[i] == b;
    }
    forall d | d in Mappings(bufs, dmas) ensures d in Mappings(bufs', dmas') {
      var i :| 0 <= i < |bufs| && bufs[i] != 0 && dmas[i] == d;
      assert bufs'[i] != 0 && dmas'[i] == d;
    }
  }

  lemma InUseGrows(bufs: seq<nat>, dmas: seq<u64>, live: set<nat>, mapped: map<u64, nat>,
                    live0: set<nat>, mapped0: map<u64, nat>, n: nat, p: nat, dma: u64)
    requires |dmas| == |bufs| && n < |bufs|
    requires SlotsInUse(bufs, dmas, live, mapped, live0, mapped0, n)
    requires p != 0 && p !in live && dma !in mapped && forall d :: d in mapped ==> mapped[d] in live
    ensures SlotsInUse(bufs[n := p], dmas[n := dma], live + {p}, mapped[dma := p], live0, mapped0, n + 1)
  {
    BuffersGrow(bufs, dmas, n, p, dma);
  }

  /** Slots below n carry their own buffer of full size and OWN; the other slots are as before. */
  ghost predicate HandedOver(slots: seq<Desc>, slots0: seq<Desc>, dmas: seq<u64>, ring: u64, n: nat)
    requires |slots| == |slots0| == |dmas|
  {
    && (forall i :: 0 <= i < |slots| ==>
          slots[i] == if i < n then Desc(dmas[i], RX_BUF_SIZE, DESC_OWN) else slots0[i])
    && n <= |dmas| && OffRing(ring, RING_SIZE, dmas[..n], RX_BUF_SIZE) && Apart(dmas[..n], RX_BUF_SIZE)
  }

  lemma HandedOverKept(slots: seq<Desc>, slots0: seq<Desc>, dmas: seq<u64>, ring: u64, n: nat, dma: u64)
    requires |slots| == |slots0| == |dmas| && n < |dmas| && HandedOver(slots, slots0, dmas, ring, n)
    ensures HandedOver(slots, slots0, dmas[n := dma], ring, n)
  {
    assert dmas[n := dma][..n] == dmas[..n];
  }

  lemma HandedOverGrows(slots: seq<Desc>, slots0: seq<Desc>, dmas: seq<u64>, mapped: map<u64, nat>,
                        ring: u64, n: nat, dma: u64)
    requires |slots| == |slots0| == |dmas| && n < |dmas| && HandedOver(slots, slots0, dmas, ring, n)
    requires Clear(dma, mapped, ring) && forall i :: 0 <= i < n ==> dmas[i] in mapped
    ensures HandedOver(slots[n := Desc(dma, RX_BUF_SIZE, DESC_OWN)], slots0, dmas[n := dma], ring, n + 1)
  {
    assert dmas[n := dma][..n + 1] == dmas[..n] + [dma];
  }

  // ---- What is asked of the kernel ----

  /** The calls that fill the first n slots: a buffer and its mapping, slot by slot. */
  function Granted(bufs: seq<nat>, n: nat): (calls: seq<Call>)
    requires n <= |bufs|
    ensures |calls| == 2 * n
    decreases n, bufs
  {
    if n == 0 then [] else Granted(bufs, n - 1) + [Alloc(bufs[n - 1]), Map(bufs[n - 1], true)]
  }

  /** The calls with which preparation stops: an allocation refused, or a mapping refused and the buffer
      given back. */
  predicate GivesUp(calls: seq<Call>) {
    calls == [Alloc(0)]
    || (|calls| == 3 && calls[0].Alloc? && calls[0].p != 0 && calls[1..] == [Map(calls[0].p, false), Free(calls[0].p)])
  }

  lemma {:induction false} GrantedSame(bufs: seq<nat>, bufs': seq<nat>, n: nat)
    requires n <= |bufs| && n <= |bufs'| && bufs[..n] == bufs'[..n]
    ensures Granted(bufs, n) == Granted(bufs', n)
  {
    if n > 0 {
      assert bufs[..n][n - 1] == bufs'[..n][n - 1];
      assert bufs[..n - 1] == bufs[..n][..n - 1] && bufs'[..n - 1] == bufs'[..n][..n - 1];
      GrantedSame(bufs, bufs', n - 1);
    }
  }

  lemma GrantedMore(bufs: seq<nat>, bufs': seq<nat>, n: nat)
    requires n < |bufs| == |bufs'| && bufs' == bufs[n := bufs'[n]]
    ensures Granted(bufs', n) == Granted(bufs, n)
    ensures Granted(bufs', n + 1) == Granted(bufs, n) + [Alloc(bufs'[n]), Map(bufs'[n], true)]
  {
    GrantedSame(bufs, bufs', n);
  }

  lemma CallsMore(calls0: seq<Call>, bufs: seq<nat>, bufs': seq<nat>, n: nat, made: seq<Call>, ok: bool)
    requires n < |bufs| == |bufs'| && bufs' == bufs[n := bufs'[n]]
    requires ok ==> made == [Alloc(bufs'[n]), Map(bufs'[n], true)]
    ensures calls0 + Granted(bufs, n) + [] + made
            == calls0 + Granted(bufs', if ok then n + 1 else n) + if ok then [] else made
  {
    GrantedMore(bufs, bufs', n);
    assert calls0 + Granted(bufs, n) + [] == calls0 + Granted(bufs, n);
    Regroup(calls0, Granted(bufs, n), made);
  }

  /** The calls of a preparation that filled n slots. */
  predicate Asked(calls: seq<Call>, bufs: seq<nat>, n: nat)
    requires n <= |bufs|
  {
    var filling := Granted(bufs, n);
    if n == |bufs| then calls == filling
    else |calls| > |filling| && calls[..|filling|] == filling && GivesUp(calls[|filling|..])
  }

  lemma {:induction false} NoneRefused(bufs: seq<nat>, n: nat)
    requires n <= |bufs| && forall i :: 0 <= i < n ==> bufs[i] != 0
    ensures !AnyRefused(Granted(bufs, n))
  {
    if n > 0 { NoneRefused(bufs, n - 1); }
  }

  /** Giving up comes from a refusal. */
  lemma GivingUpIsRefused(calls: seq<Call>, last: seq<Call>)
    requires GivesUp(last)
    ensures AnyRefused(calls + last)
  {
    var c := |calls|;
    if last == [Alloc(0)] {
      assert Refused((calls + last)[c]);
    } else {
      assert last[1] == last[1..][0];
      var i := c + 1;
      assert Refused((calls + last)[i]);
    }
  }

  /** Whether a preparation was refused something shows in how far it got. */
  lemma CallsAre(bufs: seq<nat>, n: nat, last: seq<Call>)
    requires n <= |bufs| && forall i :: 0 <= i < n ==> bufs[i] != 0
    requires if n < |bufs| then GivesUp(last) else last == []
    ensures Asked(Granted(bufs, n) + last, bufs, n) && (AnyRefused(Granted(bufs, n) + last) <==> n < |bufs|)
  {
    var filling := Granted(bufs, n);
    if n < |bufs| {
      assert (filling + last)[|filling|..] == last;
      GivingUpIsRefused(filling, last);
    } else {
      assert filling + last == filling;
      NoneRefused(bufs, n);
    }
  }

  lemma DescriptorStored(mem: Memory, base: nat, i: nat, d: Desc)
    requires i < RING_SIZE
    ensures var m1 := Store(mem, base + i * DESC_BYTES + 0, Le(d.addr, 8));
            var m2 := Store(m1, base + i * DESC_BYTES + 8, Le(d.length, 4));
            var m3 := Store(m2, base + i * DESC_BYTES + 12, Le(d.flags, 4));
            Slots(m3, base, RING_SIZE) == Slots(mem, base, RING_SIZE)[i := d] && SameOutside(mem, m3, base, RING_SIZE)
  {
    var s := Slots(mem, base, RING_SIZE);
    var m1 := Store(mem, base + i * DESC_BYTES + 0, Le(d.addr, 8));
    StoredAddr(mem, base, RING_SIZE, i, d.addr);
    var m2 := Store(m1, base + i * DESC_BYTES + 8, Le(d.length, 4));
    StoredLength(m1, base, RING_SIZE, i, d.length);
    StoredFlags(m2, base, RING_SIZE, i, d.flags);
    Overwritten(s, i, s[i].(addr := d.addr), s[i].(addr := d.addr, length := d.length), d);
  }

  lemma Overwritten(s: seq<Desc>, i: nat, a: Desc, b: Desc, c: Desc)
    requires i < |s|
    ensures s[i := a][i := b][i := c] == s[i := c]
  {
  }

  // ---- Releasing ----

  lemma ReleasedOneMore(bufs: seq<nat>, dmas: seq<u64>, i: nat)
    requires |dmas| == |bufs| && i < |bufs|
    ensures Buffers(bufs[..i + 1]) == Buffers(bufs[..i]) + if bufs[i] != 0 then {bufs[i]} else {}
    ensures Mappings(bufs[..i + 1], dmas[..i + 1])
            == Mappings(bufs[..i], dmas[..i]) + if bufs[i] != 0 then {dmas[i]} else {}
  {
    var b, b', d, d' := bufs[..i], bufs[..i + 1], dmas[..i], dmas[..i + 1];
    assert b' == b + [bufs[i]] && d' == d + [dmas[i]];
    forall x | x in Buffers(b) ensures x in Buffers(b') {
      var j :| 0 <= j < i && b[j] != 0 && b[j] == x;
      assert b'[j] == x;
    }
    forall x | x in Mappings(b, d) ensures x in Mappings(b', d') {
      var j :| 0 <= j < i && b[j] != 0 && d[j] == x;
      assert b'[j] != 0 && d'[j] == x;
    }
    if bufs[i] != 0 { assert b'[i] in Buffers(b') && d'[i] in Mappings(b', d'); }
  }

  /** Slots below i have been released; the others still hold what they held. */
  ghost predicate ReleasedUpTo(bufs: seq<nat>, dmas: seq<u64>, live: set<nat>, mapped: map<u64, nat>,
                               bufs0: seq<nat>, live0: set<nat>, mapped0: map<u64, nat>, i: nat)
    requires |dmas| == |bufs| == |bufs0| && i <= |bufs|
  {
    && Balanced(bufs, dmas, live, mapped)
    && (forall j :: 0 <= j < |bufs| ==> bufs[j] == if j < i then 0 else bufs0[j])
    && live == live0 - Buffers(bufs0[..i])
    && mapped == mapped0 - Mappings(bufs0[..i], dmas[..i])
  }

  lemma ReleaseSlot(bufs: seq<nat>, dmas: seq<u64>, live: set<nat>, mapped: map<u64, nat>,
                    bufs0: seq<nat>, live0: set<nat>, mapped0: map<u64, nat>, i: nat)
    requires |dmas| == |bufs| == |bufs0| && i < |bufs|
    requires ReleasedUpTo(bufs, dmas, live, mapped, bufs0, live0, mapped0, i)
    ensures if bufs[i] != 0
            then ReleasedUpTo(bufs[i := 0], dmas, live - {bufs[i]}, mapped - {dmas[i]}, bufs0, live0, mapped0, i + 1)
            else ReleasedUpTo(bufs, dmas, live, mapped, bufs0, live0, mapped0, i + 1)
  {
    ReleasedOneMore(bufs0, dmas, i);
  }

  /** What the slots account for, taken away, leaves what was there before them. */
  lemma ReleaseRestores(bufs: seq<nat>, dmas: seq<u64>, live: set<nat>, mapped: map<u64, nat>,
                        live0: set<nat>, mapped0: map<u64, nat>)
    requires |dmas| == |bufs| && Accounted(bufs, dmas, live, mapped, live0, mapped0)
    ensures live - Buffers(bufs) == live0 && mapped - Mappings(bufs, dmas) == mapped0
  {
  }

  lemma NothingToRelease(bufs: seq<nat>, dmas: seq<u64>)
    requires |dmas| == |bufs| && forall i :: 0 <= i < |bufs| ==> bufs[i] == 0
    ensures Buffers(bufs) == {} && Mappings(bufs, dmas) == {}
  {
  }

  /** The calls that release the first n slots: mapping, then buffer, of each slot that has them. */
  function Releases(bufs: seq<nat>, dmas: seq<u64>, n: nat): seq<Call>
    requires |dmas| == |bufs| && n <= |bufs|
    decreases n, bufs
  {
    if n == 0 then []
    else Releases(bufs, dmas, n - 1) + if bufs[n - 1] != 0 then [Unmap(dmas[n - 1]), Free(bufs[n - 1])] else []
  }

  // ---- Ring registers ----

  /** Registers whose write only stores the value. */
  predicate Plain(addr: nat) {
    addr < SC_REG_COUNT && addr !in {SC_REG_CTRL, SC_REG_STATUS, SC_REG_IRQ_STS, SC_REG_DMA_CTRL, SC_REG_DEV_ID,
                                     SC_REG_IRQ_TEST, SC_REG_TX_DOORBELL}
  }

  lemma PlainWrite(n: Nic, addr: nat, val: u32)
    requires Plain(addr)
    ensures SmartNic.MmioWrite(n, addr, val) == WithRegs(n, Set(n.rb.regs, addr, val))
  {
  }

  function Lower32(x: u64): u32 { x % TWO32 }

  function Upper32(x: u64): u32 { x / TWO32 }

  const ALL_IRQS: u32 := 15

  /** The register file after the writes that end probe. */
  function Programmed(regs: Regs, tx: u64, rx: u64): Regs {
    var r1 := Set(Set(Set(regs, SC_REG_TX_RING_BASE_LO, Lower32(tx)), SC_REG_TX_RING_BASE_HI, Upper32(tx)),
                  SC_REG_TX_RING_SIZE, RING_SIZE);
    var r2 := Set(Set(Set(r1, SC_REG_RX_RING_BASE_LO, Lower32(rx)), SC_REG_RX_RING_BASE_HI, Upper32(rx)),
                  SC_REG_RX_RING_SIZE, RING_SIZE);
    Set(Set(r2, SC_REG_IRQ_EN, ALL_IRQS), SC_REG_RX_DOORBELL, RING_SIZE)
  }

  /** The device then sees both rings where the driver put them, with its tails and doorbell as they were. */
  lemma ProgrammedRings(regs: Regs, tx: u64, rx: u64)
    ensures var r := Programmed(regs, tx, rx);
            && RingAt(r, SC_REG_TX_RING_BASE_LO, SC_REG_TX_TAIL) == Ring(tx, 64, Get(regs, SC_REG_TX_TAIL))
            && RingAt(r, SC_REG_RX_RING_BASE_LO, SC_REG_RX_TAIL) == Ring(rx, 64, Get(regs, SC_REG_RX_TAIL))
            && Get(r, SC_REG_TX_DOORBELL) == Get(regs, SC_REG_TX_DOORBELL) && Get(r, 0x32C) == 64
            && Get(r, 0x008) == 15
  {
  }

  // ---- Interrupts ----

  function One(b: bool): nat { if b then 1 else 0 }

  /** Completions signalled for a status word: one for each of its four interrupt sources. */
  function Signals(sts: u32): nat { One(Bit(sts, 0)) + One(Bit(sts, 1)) + One(Bit(sts, 2)) + One(Bit(sts, 3)) }

  /** One for each of the four lowest bits that is set. */
  lemma SignalsCount(sts: u32)
    ensures Signals(sts) == sts % 2 + sts / 2 % 2 + sts / 4 % 2 + sts / 8 % 2
  {
    BitIsDigit(sts, 1);
    BitIsDigit(sts, 2);
    BitIsDigit(sts, 3);
    SmallPowers();
  }

  lemma {:induction false} ClearedBySelf(x: nat)
    ensures AndNot(x, x) == 0
  {
    if x > 0 { ClearedBySelf(x / 2); }
  }

  /** The device after its whole interrupt status has been written back to it. */
  function AllAcknowledged(n: Nic): Nic {
    WithRegs(n, Set(n.rb.regs, SC_REG_IRQ_STS, 0)).(irqs := n.irqs + [0])
  }

  lemma AllCleared(n: Nic)
    ensures SmartNic.MmioWrite(n, SC_REG_IRQ_STS, Reg(n, SC_REG_IRQ_STS)) == AllAcknowledged(n)
  {
    ClearedBySelf(Reg(n, SC_REG_IRQ_STS));
  }

  class Adapter {
    const kernel: Kernel
    const memory: Bridge
    const rx_buf: array<nat>
    const rx_dma: array<u64>
    const rx_ring: u64
    const tx_ring: u64
    var tx_head: nat
    var irq_count: nat
    var completions: nat

    ghost predicate Valid()
      reads this, kernel
    {
      && kernel.Valid() && kernel.coherent == rx_ring
      && rx_buf.Length == RING_SIZE && rx_dma.Length == RING_SIZE && rx_buf as object != rx_dma as object
      && tx_head < RING_SIZE
    }

    /** The part of probe that allocates: empty tracking arrays and zeroed head. */
    constructor (kernel: Kernel, memory: Bridge, tx_ring: u64, rx_ring: u64)
      requires kernel.Valid() && kernel.coherent == rx_ring
      ensures Valid() && this.kernel == kernel && this.memory == memory
      ensures this.tx_ring == tx_ring && this.rx_ring == rx_ring
      ensures fresh(rx_buf) && fresh(rx_dma) && forall i :: 0 <= i < RING_SIZE ==> rx_buf[i] == 0
      ensures tx_head == 0 && irq_count == 0 && completions == 0
    {
      this.kernel, this.memory, this.tx_ring, this.rx_ring := kernel, memory, tx_ring, rx_ring;
      rx_buf := new nat[RING_SIZE](_ => 0);
      rx_dma := new u64[RING_SIZE](_ => 0);
      tx_head, irq_count, completions := 0, 0, 0;
    }

    ghost predicate FilledUpTo(n: nat, live0: set<nat>, mapped0: map<u64, nat>)
      requires Valid() && n <= RING_SIZE
      reads this, kernel, rx_buf, rx_dma
    {
      SlotsInUse(rx_buf[..], rx_dma[..], kernel.live, kernel.mapped, live0, mapped0, n)
    }

    ghost function RxSlots(): seq<Desc>
      reads this, memory
    {
      Slots(memory.mem, rx_ring, RING_SIZE)
    }

    /** Fills slot i of a ring: address and length first, ownership last. */
    method FillDescriptor(ring: u64, i: nat, d: Desc)
      requires i < RING_SIZE
      modifies memory`mem
      ensures Slots(memory.mem, ring, RING_SIZE) == Slots(old(memory.mem), ring, RING_SIZE)[i := d]
      ensures SameOutside(old(memory.mem), memory.mem, ring, RING_SIZE)
    {
      DescriptorStored(memory.mem, ring, i, d);
      memory.mem := Store(memory.mem, ring + i * DESC_BYTES + 0, Le(d.addr, 8));
      memory.mem := Store(memory.mem, ring + i * DESC_BYTES + 8, Le(d.length, 4));
      memory.mem := Store(memory.mem, ring + i * DESC_BYTES + 12, Le(d.flags, 4));
    }

    /** One turn of smarteth_prepare_rx_buffers. */
    method PrepareSlot(i: nat, ghost live0: set<nat>, ghost mapped0: map<u64, nat>)
      returns (ok: bool, ghost made: seq<Call>)
      requires Valid() && i < RING_SIZE && FilledUpTo(i, live0, mapped0)
      modifies kernel, memory`mem, rx_buf, rx_dma
      ensures Valid() && FilledUpTo(if ok then i + 1 else i, live0, mapped0)
      ensures rx_dma[..] == old(rx_dma[..])[i := rx_dma[i]]
      ensures ok ==> Clear(rx_dma[i], old(kernel.mapped), rx_ring)
      ensures RxSlots() == if ok then old(RxSlots())[i := Desc(rx_dma[i], RX_BUF_SIZE, DESC_OWN)] else old(RxSlots())
      ensures SameOutside(old(memory.mem), memory.mem, rx_ring, RING_SIZE)
      ensures rx_buf[..] == old(rx_buf[..])[i := rx_buf[i]]
      ensures kernel.calls == old(kernel.calls) + made
      ensures if ok then made == [Alloc(rx_buf[i]), Map(rx_buf[i], true)] else GivesUp(made)
    {
      ghost var bufs, dmas, live, mapped := rx_buf[..], rx_dma[..], kernel.live, kernel.mapped;
      var p := kernel.Kmalloc();
      made := [Alloc(p)];
      rx_buf[i] := p;
      if p == 0 {
        assert rx_buf[..] == bufs;
        return false, made;
      }
      var dma;
      ok, dma := kernel.DmaMapSingle(p);
      made := made + [Map(p, ok)];
      if !ok {
        kernel.Kfree(p);
        rx_buf[i] := 0;
        assert rx_buf[..] == bufs && kernel.live == live;
        made := made + [Free(p)];
        return;
      }
      rx_dma[i] := dma;
      FillDescriptor(rx_ring, i, Desc(dma, RX_BUF_SIZE, DESC_OWN));
      InUseGrows(bufs, dmas, live, mapped, live0, mapped0, i, p, dma);
      assert rx_buf[..] == bufs[i := p] && rx_dma[..] == dmas[i := dma];
    }

    /** i slots have been prepared since the kernel and the ring were as given. */
    ghost predicate Prepares(i: nat, live0: set<nat>, mapped0: map<u64, nat>, slots0: seq<Desc>)
      requires Valid() && i <= RING_SIZE && |slots0| == RING_SIZE
      reads this, kernel, rx_buf, rx_dma, memory
    {
      FilledUpTo(i, live0, mapped0) && HandedOver(RxSlots(), slots0, rx_dma[..], rx_ring, i)
    }

    /** The kernel has been asked for the buffers of i slots, and then for what is in last. */
    ghost predicate HasAsked(calls0: seq<Call>, i: nat, last: seq<Call>)
      requires i <= rx_buf.Length
      reads kernel, rx_buf
    {
      kernel.calls == calls0 + Granted(rx_buf[..], i) + last
    }

    /** PrepareSlot, in terms of all the slots so far. */
    method PrepareNext(i: nat, ghost live0: set<nat>, ghost mapped0: map<u64, nat>, ghost slots0: seq<Desc>,
                       ghost calls0: seq<Call>)
      returns (ok: bool, ghost last: seq<Call>)
      requires Valid() && i < RING_SIZE && |slots0| == RING_SIZE && Prepares(i, live0, mapped0, slots0)
      requires HasAsked(calls0, i, [])
      modifies kernel, memory`mem, rx_buf, rx_dma
      ensures Valid() && Prepares(if ok then i + 1 else i, live0, mapped0, slots0)
      ensures SameOutside(old(memory.mem), memory.mem, rx_ring, RING_SIZE)
      ensures HasAsked(calls0, if ok then i + 1 else i, last) && if ok then last == [] else GivesUp(last)
    {
      ghost var slots, bufs, dmas, mapped := RxSlots(), rx_buf[..], rx_dma[..], kernel.mapped;
      ghost var made;
      ok, made := PrepareSlot(i, live0, mapped0);
      HandedOverKept(slots, slots0, dmas, rx_ring, i, rx_dma[i]);
      if ok { HandedOverGrows(slots, slots0, dmas, mapped, rx_ring, i, rx_dma[i]); }
      CallsMore(calls0, bufs, rx_buf[..], i, made, ok);
      last := if ok then [] else made;
    }

    /** The loop of smarteth_prepare_rx_buffers, from slots without buffers. */
    method PrepareSlots() returns (i: nat, ghost last: seq<Call>)
      requires Valid() && forall k :: 0 <= k < RING_SIZE ==> rx_buf[k] == 0
      modifies kernel, memory`mem, rx_buf, rx_dma
      ensures Valid() && i <= RING_SIZE
      ensures Prepares(i, old(kernel.live), old(kernel.mapped), old(RxSlots()))
      ensures SameOutside(old(memory.mem), memory.mem, rx_ring, RING_SIZE)
      ensures HasAsked(old(kernel.calls), i, last) && if i < RING_SIZE then GivesUp(last) else last == []
    {
      i, last := 0, [];
      assert FilledUpTo(0, kernel.live, kernel.mapped);
      var ok := true;
      while i < RING_SIZE && ok
        invariant i <= RING_SIZE && Valid() && (if ok then last == [] else i < RING_SIZE && GivesUp(last))
        invariant Prepares(i, old(kernel.live), old(kernel.mapped), old(RxSlots()))
        invariant SameOutside(old(memory.mem), memory.mem, rx_ring, RING_SIZE)
        invariant HasAsked(old(kernel.calls), i, last)
        decreases RING_SIZE - i, ok
      {
        ok, last := PrepareNext(i, old(kernel.live), old(kernel.mapped), old(RxSlots()), old(kernel.calls));
        if ok { i := i + 1; }
      }
    }

    /** smarteth_prepare_rx_buffers, from slots without buffers: it stops at the first allocation or mapping
        that the kernel refuses, and fails exactly if there is one. The n slots before that are allocated, mapped
        and handed over, each to its own buffer; the others hold nothing, and nothing else has been asked for. */
    method PrepareRxBuffers() returns (failed: bool, ghost n: nat, ghost asked: seq<Call>)
      requires Valid() && forall i :: 0 <= i < RING_SIZE ==> rx_buf[i] == 0
      modifies kernel, memory`mem, rx_buf, rx_dma
      ensures Valid() && n <= RING_SIZE && (failed <==> n < RING_SIZE)
      ensures kernel.calls == old(kernel.calls) + asked && Asked(asked, rx_buf[..], n)
      ensures failed <==> AnyRefused(asked)
      ensures FilledUpTo(n, old(kernel.live), old(kernel.mapped))
      ensures HandedOver(RxSlots(), old(RxSlots()), rx_dma[..], rx_ring, n)
      ensures SameOutside(old(memory.mem), memory.mem, rx_ring, RING_SIZE)
    {
      var i;
      ghost var last;
      i, last := PrepareSlots();
      n, asked := i, Granted(rx_buf[..], i) + last;
      failed := i < RING_SIZE;
      CallsAre(rx_buf[..], i, last);
      Regroup(old(kernel.calls), Granted(rx_buf[..], i), last);
    }

    /** smarteth_free_rx_buffers: unmaps and frees the buffer of every slot that has one, once. */
    method FreeRxBuffers()
      requires Valid() && Balanced(rx_buf[..], rx_dma[..], kernel.live, kernel.mapped)
      modifies kernel, rx_buf
      ensures Valid() && forall i :: 0 <= i < RING_SIZE ==> rx_buf[i] == 0
      ensures kernel.live == old(kernel.live) - Buffers(old(rx_buf[..]))
      ensures kernel.mapped == old(kernel.mapped) - Mappings(old(rx_buf[..]), rx_dma[..])
      ensures kernel.calls == old(kernel.calls) + Releases(old(rx_buf[..]), rx_dma[..], RING_SIZE)
    {
      ghost var bufs0, dmas := rx_buf[..], rx_dma[..];
      var i := 0;
      while i < RING_SIZE
        invariant i <= RING_SIZE && Valid() && rx_dma[..] == dmas
        invariant ReleasedUpTo(rx_buf[..], dmas, kernel.live, kernel.mapped,
                               bufs0, old(kernel.live), old(kernel.mapped), i)
        invariant kernel.calls == old(kernel.calls) + Releases(bufs0, dmas, i)
      {
        ghost var bufs := rx_buf[..];
        ReleaseSlot(bufs, dmas, kernel.live, kernel.mapped, bufs0, old(kernel.live), old(kernel.mapped), i);
        if rx_buf[i] != 0 {
          kernel.DmaUnmapSingle(rx_dma[i]);
          kernel.Kfree(rx_buf[i]);
          rx_buf[i] := 0;
          assert rx_buf[..] == bufs[i := 0];
        }
        i := i + 1;
      }
      assert bufs0[..RING_SIZE] == bufs0 && dmas[..RING_SIZE] == dmas;
    }

    /** Preparing and then freeing, whatever failed on the way, leaves nothing allocated or mapped that was
        not there before; freeing again changes nothing. */
    method PrepareAndFree()
      requires Valid() && forall i :: 0 <= i < RING_SIZE ==> rx_buf[i] == 0
      modifies kernel, memory`mem, rx_buf, rx_dma
      ensures Valid() && kernel.live == old(kernel.live) && kernel.mapped == old(kernel.mapped)
      ensures forall i :: 0 <= i < RING_SIZE ==> rx_buf[i] == 0
    {
      var _, _, _ := PrepareRxBuffers();
      ReleaseRestores(rx_buf[..], rx_dma[..], kernel.live, kernel.mapped, old(kernel.live), old(kernel.mapped));
      FreeRxBuffers();
      NothingToRelease(rx_buf[..], rx_dma[..]);
      FreeRxBuffers();
    }

    method WriteReg(nic: Device, addr: nat, val: u32)
      requires nic.Valid() && Plain(addr)
      modifies nic, nic.m_regs, nic.m_regs.m_regs, nic.m_dma
      ensures nic.Valid() && nic.View() == WithRegs(old(nic.View()), Set(old(nic.View()).rb.regs, addr, val))
    {
      PlainWrite(nic.View(), addr, val);
      nic.OnMmioWrite(addr, val);
    }

    /** The register writes that end probe. */
    method ConfigureRings(nic: Device)
      requires Valid() && nic.Valid()
      modifies nic, nic.m_regs, nic.m_regs.m_regs, nic.m_dma
      ensures nic.Valid()
      ensures nic.View() == WithRegs(old(nic.View()), Programmed(old(nic.View()).rb.regs, tx_ring, rx_ring))
    {
      WriteReg(nic, SC_REG_TX_RING_BASE_LO, Lower32(tx_ring));
      WriteReg(nic, SC_REG_TX_RING_BASE_HI, Upper32(tx_ring));
      WriteReg(nic, SC_REG_TX_RING_SIZE, RING_SIZE);
      WriteReg(nic, SC_REG_RX_RING_BASE_LO, Lower32(rx_ring));
      WriteReg(nic, SC_REG_RX_RING_BASE_HI, Upper32(rx_ring));
      WriteReg(nic, SC_REG_RX_RING_SIZE, RING_SIZE);
      WriteReg(nic, SC_REG_IRQ_EN, ALL_IRQS);
      WriteReg(nic, SC_REG_RX_DOORBELL, RING_SIZE);
    }

    /** The receive side of probe on a device whose receive tail is 0: once it succeeds, the device is in
        the state from which every run of incoming frames is delivered as RxDelivery.WholeRun says. */
    method ProbeReceive(nic: Device) returns (failed: bool, ghost asked: seq<Call>)
      requires Valid() && nic.Valid() && nic.bridge == memory && forall i :: 0 <= i < RING_SIZE ==> rx_buf[i] == 0
      requires rx_ring > 0 && rx_ring + RING_SIZE * DESC_BYTES <= TWO64
      requires memory.faults == [] && Get(nic.View().rb.regs, SC_REG_RX_TAIL) == 0
      requires nic.m_regs.m_regs as object != rx_dma as object
      modifies kernel, memory`mem, rx_buf, rx_dma, nic, nic.m_regs, nic.m_regs.m_regs, nic.m_dma
      ensures Valid() && nic.Valid()
      ensures kernel.calls == old(kernel.calls) + asked && (failed <==> AnyRefused(asked))
      ensures !failed ==> |asked| == 2 * 64 && Prepared(RxOf(nic.View()), rx_dma[..], 2048)
    {
      ghost var n;
      failed, n, asked := PrepareRxBuffers();
      if failed { return; }
      ghost var regs := nic.View().rb.regs;
      ConfigureRings(nic);
      ProgrammedRings(regs, tx_ring, rx_ring);
      assert rx_dma[..RING_SIZE] == rx_dma[..];
    }

    /** The posting part of smarteth_test_tx. The doorbell is set to 1, and the slot is not checked to
        be free; TxDrainSpec.DoorbellOfOne says what the device makes of it. */
    method PostTx(nic: Device, dma: u64, length: u32)
      requires Valid() && nic.Valid() && nic.bridge == memory
      modifies this`tx_head, memory`mem, nic, nic.m_regs, nic.m_regs.m_regs, nic.m_dma
      ensures Valid() && nic.Valid() && tx_head == (old(tx_head) + 1) % RING_SIZE
      ensures Slots(memory.mem, tx_ring, RING_SIZE)
              == Slots(old(memory.mem), tx_ring, RING_SIZE)[old(tx_head) := Desc(dma, length, DESC_OWN)]
      ensures SameOutside(old(memory.mem), memory.mem, tx_ring, RING_SIZE)
      ensures nic.View() == SmartNic.MmioWrite(old(nic.View()).(port := memory.View()), SC_REG_TX_DOORBELL, 1)
      ensures memory.faults == old(memory.faults) && nic.m_tx_event
    {
      var head := tx_head;
      FillDescriptor(tx_ring, head, Desc(dma, length, DESC_OWN));
      tx_head := (head + 1) % RING_SIZE;
      nic.OnMmioWrite(SC_REG_TX_DOORBELL, 1);
    }

    /** smarteth_irq_handler, on a device that raises nothing meanwhile (IrqStatus has the other case). */
    method IrqHandler(nic: Device) returns (handled: bool)
      requires Valid() && nic.Valid()
      modifies this`irq_count, this`completions, nic, nic.m_regs, nic.m_regs.m_regs, nic.m_dma
      ensures Valid() && nic.Valid()
      ensures handled == (Reg(old(nic.View()), 0x00C) != 0)
      ensures irq_count == old(irq_count) + One(handled)
      ensures completions == old(completions) + if handled then Signals(Reg(old(nic.View()), 0x00C)) else 0
      ensures nic.View() == if handled then AllAcknowledged(old(nic.View())) else old(nic.View())
    {
      var irq_sts := nic.OnMmioRead(SC_REG_IRQ_STS);
      if irq_sts == 0 { return false; }
      AllCleared(nic.View());
      nic.OnMmioWrite(SC_REG_IRQ_STS, irq_sts);
      irq_count := irq_count + 1;
      Complete(irq_sts);
      handled := true;
    }

    method Complete(irq_sts: u32)
      modifies this`completions
      ensures completions == old(completions) + Signals(irq_sts)
    {
      if Bit(irq_sts, 0) { completions := completions + 1; }
      if Bit(irq_sts, 2) { completions := completions + 1; }
      if Bit(irq_sts, 3) { completions := completions + 1; }
      if Bit(irq_sts, 1) { completions := completions + 1; }
    }
  }
}
