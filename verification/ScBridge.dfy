/** firmware/qemu-dev/smarteth_sc_bridge.c: the QEMU end of the bridge, one handler at a time.
    How the handlers run against each other is in MmioProtocol. */
module ScBridge {
  import opened Bits
  import opened GuestMemory
  import opened Protocol
  import opened DmaPath
  import opened RegisterBlock

  /** Messages to the SystemC side. */
  datatype ToSc =
    | ReadReq(addr: nat)
    | WriteReq(addr: nat, word: u32)
    | DmaData(bytes: seq<u8>)
    | DmaAck

  /** Messages from the SystemC side. */
  datatype ToQemu =
    | ReadResp(value: u32, status: u32)
    | WriteAck
    | DmaRead(addr: nat, len: u32)
    | DmaWrite(addr: nat, data: seq<u8>)
    | Msi(vector: u32)

  const SC_STATUS_OK: u32 := 0

  function InitialCache(): Regs {
    Set(Set(Set(Set(ZeroRegs(), SC_REG_DEV_ID, SC_DEV_ID), SC_REG_STATUS, SC_STATUS_READY),
            SC_REG_MAC_LO, 0x00541234), SC_REG_MAC_HI, 0x0056)
  }

  /** The effect of a guest write on the register cache. */
  function CacheWrite(cache: Regs, addr: nat, val: u64): Regs {
    var w: u32 := val % TWO32;
    if addr >= SC_REG_COUNT then cache
    else if addr == SC_REG_CTRL then
      if Bit(val, CTRL_RESET_BIT) then InitialCache() else Set(cache, addr, w)
    else if addr == SC_REG_IRQ_STS then Set(cache, addr, AndNot32(Get(cache, addr), w))
    else if addr == SC_REG_DMA_CTRL then
      var c := Set(cache, addr, w);
      if Bit(val, DMA_START_BIT) then Set(c, SC_REG_DMA_STS, SC_STATUS_DMA_BSY) else c
    else if addr == SC_REG_STATUS || addr == SC_REG_DEV_ID then cache
    else Set(cache, addr, w)
  }

  /** Is the write passed on to the SystemC side? */
  predicate Forwarded(addr: nat) {
    addr < SC_REG_COUNT && addr != SC_REG_STATUS && addr != SC_REG_DEV_ID
  }

  function ServeRead(mem: Memory, addr: nat, len: u32): seq<u8> { Fetch(mem, addr, Min(len, DMA_MAX_BUF)) }

  /** What the I/O thread sends back when it handles a message. */
  function ReplyTo(mem: Memory, m: ToQemu): seq<ToSc> {
    match m
    case DmaRead(addr, len) => [DmaData(ServeRead(mem, addr, len))]
    case DmaWrite(_, _) => [DmaAck]
    case _ => []
  }

  /** Guest memory after it has handled the message. */
  function MemoryAfter(mem: Memory, m: ToQemu): Memory {
    if m.DmaWrite? then Stored(mem, m.addr, m.data) else mem
  }

  /** Until the first read from the device, the bridge's cache holds another MAC address than the device does. */
  lemma CachedMacDiffers()
    ensures Get(InitialCache(), 0x010) == 0x0054_1234 && Get(InitialCache(), 0x014) == 0x0056
    ensures Get(RegisterBlock.Initial().regs, 0x010) == 0x1200_5452
    ensures Get(RegisterBlock.Initial().regs, 0x014) == 0x5634
  {
  }

  /** What the cache stands in with, register by register, for a device that cannot be reached: a status bit goes when
      it is acknowledged, a started DMA shows as busy, the fixed registers keep their values, and every other register
      (but the control register, when it resets) holds what was written to it last. */
  lemma CacheExact(cache: Regs, addr: nat, val: u64, k: nat)
    ensures var c, w: u32 := CacheWrite(cache, addr, val), val % 0x1_0000_0000;
            && (addr == 0x00C ==>
                  (Bit(Get(c, 0x00C), k) <==> Bit(Get(cache, 0x00C), k) && !Bit(w, k)))
            && (addr == 0x058 && Bit(w, 0) ==> Get(c, 0x05C) == 2)
            && (addr == 0x004 || addr == 0x100 || addr >= 0x400 ==> c == cache)
            && (addr < 0x400 && addr !in {0x000, 0x004, 0x00C, 0x100} ==> Get(c, addr) == w)
            && (addr == 0x000 && !Bit(w, 0) ==> c == Set(cache, 0x000, w))
            && (addr == 0x000 && Bit(w, 0) ==> forall i :: 0 <= i < REG_WORDS ==>
                  c[i] == if i == 0x40 then 0x5241_4D53 else if i == 1 then 1 else if i == 4 then 0x0054_1234
                          else if i == 5 then 0x0056 else 0)
            && (addr < 0x400 && addr != 0x000 ==>
                  forall i :: 0 <= i < REG_WORDS && i != addr / 4 && (addr == 0x058 ==> i != 0x17) ==> c[i] == cache[i])
  {
    BitAndNot(Get(cache, 0x00C), val % TWO32, k);
    assert Bit(val, 0) == Bit(val % TWO32, 0);
  }

  class ScBridgeState {
    var connected: bool
    var mmio_pending: bool
    var mmio_resp_data: u32
    var mmio_resp_status: u32
    const regs: array<u32>
    var sent: seq<ToSc>       // messages written to the socket
    var mem: Memory
    var notified: seq<u32>    // MSI-X vectors delivered

    ghost predicate Valid()
      reads this
    {
      regs.Length == REG_WORDS
    }

    constructor (mem: Memory)
      ensures Valid() && !connected && !mmio_pending && sent == [] && notified == [] && this.mem == mem
      ensures regs[..] == InitialCache()
    {
      connected, mmio_pending := false, false;
      mmio_resp_data, mmio_resp_status := 0, 0;
      regs := new u32[REG_WORDS](_ => 0);
      sent, notified := [], [];
      this.mem := mem;
      new;
      assert regs[..] == ZeroRegs();
      StoreDefaults();
    }

    method StoreDefaults()
      requires Valid()
      modifies regs
      ensures regs[..] == Set(Set(Set(Set(old(regs[..]), SC_REG_DEV_ID, SC_DEV_ID), SC_REG_STATUS, SC_STATUS_READY),
                                  SC_REG_MAC_LO, 0x00541234), SC_REG_MAC_HI, 0x0056)
    {
      regs[SC_REG_DEV_ID / 4] := SC_DEV_ID;
      regs[SC_REG_STATUS / 4] := SC_STATUS_READY;
      regs[SC_REG_MAC_LO / 4] := 0x00541234;
      regs[SC_REG_MAC_HI / 4] := 0x0056;
    }

    /** sc_bridge_mmio_write: the cache is updated first; the write is then posted, not awaited.
        A reset is posted like any other write. */
    method MmioWrite(addr: nat, val: u64)
      requires Valid()
      modifies this`sent, regs
      ensures regs[..] == CacheWrite(old(regs[..]), addr, val)
      ensures sent == old(sent) + if Forwarded(addr) && connected then [WriteReq(addr, val % TWO32)] else []
    {
      if addr >= SC_REG_COUNT { return; }
      if addr == SC_REG_CTRL {
        if Bit(val, CTRL_RESET_BIT) {
          forall i | 0 <= i < regs.Length { regs[i] := 0; }
          assert regs[..] == ZeroRegs();
          StoreDefaults();
        } else {
          regs[addr / 4] := val % TWO32;
        }
      } else if addr == SC_REG_IRQ_STS {
        regs[addr / 4] := AndNot32(regs[addr / 4], val % TWO32);
      } else if addr == SC_REG_DMA_CTRL {
        regs[addr / 4] := val % TWO32;
        if Bit(val, DMA_START_BIT) { regs[SC_REG_DMA_STS / 4] := SC_STATUS_DMA_BSY; }
      } else if addr == SC_REG_STATUS || addr == SC_REG_DEV_ID {
        return;
      } else {
        regs[addr / 4] := val % TWO32;
      }
      if connected { sent := sent + [WriteReq(addr, val % TWO32)]; }
    }

    /** The part of sc_bridge_mmio_read before the wait: either the answer is known here, or the
        flag goes up first and the request goes out after it. */
    method BeginRead(addr: nat) returns (answer: u32, waiting: bool)
      requires Valid()
      modifies this`sent, this`mmio_pending
      ensures waiting == (addr < SC_REG_COUNT && connected)
      ensures waiting ==> mmio_pending && sent == old(sent) + [ReadReq(addr)]
      ensures !waiting ==> mmio_pending == old(mmio_pending) && sent == old(sent)
      ensures !waiting ==> answer == if addr == SC_REG_DEV_ID then SC_DEV_ID
                                     else if addr == SC_REG_STATUS then SC_STATUS_READY
                                     else if addr >= SC_REG_COUNT then 0 else regs[addr / 4]
    {
      answer, waiting := 0, false;
      if addr >= SC_REG_COUNT { return; }
      if !connected {
        if addr == SC_REG_DEV_ID {
          answer := SC_DEV_ID;
        } else if addr == SC_REG_STATUS {
          answer := SC_STATUS_READY;
        } else {
          answer := regs[addr / 4];
        }
        return;
      }
      mmio_pending := true;
      sent := sent + [ReadReq(addr)];
      waiting := true;
    }

    /** The part after the wait. */
    method FinishRead(addr: nat) returns (answer: u32)
      requires Valid() && addr < SC_REG_COUNT && !mmio_pending
      modifies regs
      ensures answer == if mmio_resp_status == SC_STATUS_OK then mmio_resp_data else old(regs[addr / 4])
      ensures regs[..] == Set(old(regs[..]), addr, answer)
    {
      if mmio_resp_status != SC_STATUS_OK { return regs[addr / 4]; }
      regs[addr / 4] := mmio_resp_data;
      answer := mmio_resp_data;
    }

    /** sc_bridge_handle_msg: only a read response touches what the reader waits for. */
    method HandleMessage(msg: ToQemu)
      requires Valid()
      modifies this`mmio_pending, this`mmio_resp_data, this`mmio_resp_status, this`sent, this`mem, this`notified
      ensures !msg.ReadResp? ==> mmio_pending == old(mmio_pending) && mmio_resp_data == old(mmio_resp_data)
      ensures !msg.ReadResp? ==> mmio_resp_status == old(mmio_resp_status)
      ensures msg.ReadResp? ==> !mmio_pending && mmio_resp_data == msg.value && mmio_resp_status == msg.status
      ensures sent == old(sent) + ReplyTo(old(mem), msg) && mem == MemoryAfter(old(mem), msg)
      ensures notified == old(notified) + if msg.Msi? then [msg.vector] else []
    {
      match msg
      case ReadResp(value, status) =>
        mmio_resp_data := value;
        mmio_resp_status := status;
        mmio_pending := false;
      case WriteAck =>
      case DmaRead(addr, len) =>
        sent := sent + [DmaData(ServeRead(mem, addr, len))];
      case DmaWrite(addr, data) =>
        mem := Stored(mem, addr, data);
        sent := sent + [DmaAck];
      case Msi(vector) =>
        notified := notified + [vector];
    }
  }
}
