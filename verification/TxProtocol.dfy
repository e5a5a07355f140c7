/** The transmit ring as a two-party protocol. The driver's four stores and its doorbell write, the
    device's DMA accesses, and any other guest store are single steps and interleave freely;
    register writes wait while the device is inside a region that holds the register mutex. */
module TxProtocol {
  import opened Bits
  import opened GuestMemory
  import opened Protocol
  import opened DmaPath
  import opened Rings
  import opened RingMemory

  /** A frame handed over: its descriptor and its bytes at that moment. */
  datatype Post = Post(addr: u64, length: u32, frame: Frame)

  /** Where the driver is in posting a packet. */
  datatype Driver =
    | Idle
    | AddrStored(addr: u64, length: u32)
    | LengthStored(addr: u64, length: u32)
    | OwnStored
    | HeadMoved

  /** Where the device is in one pass of process_tx; Between means the mutex is free. */
  datatype Device =
    | Between
    | HasDesc(desc: Desc)
    | HasData(desc: Desc, data: Frame)
    | Transmitted(desc: Desc)
    | WroteBack

  datatype State = State(
    x: Tx,                 // ring registers, guest memory, transmit log, wake-up flag
    head: nat,             // tx_head
    driver: Driver,
    bells: seq<u32>,       // doorbell writes on their way to the device
    device: Device,
    awake: bool,           // process_tx is in its inner loop, not waiting for its event
    // history
    posted: seq<Post>,
    done: nat,             // descriptors handed back
    log: seq<nat>,         // which posted frame each transmission was
    retries: nat,          // failed write-backs
    irqs: nat)             // how often the inner loop has ended, raising TX-done

  datatype Step =
    | StoreAddr(addr: u64, length: u32)
    | StoreLength
    | StoreOwn
    | MoveHead
    | RingBell
    | DeliverBell
    | GuestStore(at: nat, data: seq<u8>)
    | FetchDesc(ok: bool)
    | FetchData(ok: bool)
    | Transmit
    | WriteBack(ok: bool)
    | Advance

  function Mem(s: State): Memory { s.x.port.mem }

  function WithMem(s: State, m: Memory): State { s.(x := s.x.(port := Port(m, []))) }

  function SlotsIn(s: State): seq<Desc> { Slots(Mem(s), s.x.ring.base, s.x.ring.size) }

  function HeadAddr(s: State): nat { s.x.ring.base + s.head * DESC_BYTES }

  predicate Enabled(s: State, step: Step) {
    match step
    case StoreAddr(addr, length) =>
      // the driver posts into a slot the device has handed back, from a buffer of its own
      && s.driver.Idle? && s.head < s.x.ring.size && !Own(SlotsIn(s)[s.head])
      && length <= DMA_MAX_BUF && Disjoint(addr, length, s.x.ring.base, s.x.ring.size * DESC_BYTES)
    case StoreLength => s.driver.AddrStored?
    case StoreOwn => s.driver.LengthStored?
    case MoveHead => s.driver.OwnStored? && s.x.ring.size > 0
    case RingBell => s.driver.HeadMoved?
    case DeliverBell => |s.bells| > 0 && s.device.Between?
    case GuestStore(at, data) =>
      // other stores stay off the ring and off buffers the device may still read
      && Disjoint(at, |data|, s.x.ring.base, s.x.ring.size * DESC_BYTES)
      && forall n :: s.done <= n < |s.posted| ==> Disjoint(at, |data|, s.posted[n].addr, s.posted[n].length)
    case FetchDesc(ok) => s.device.Between? && s.awake
    case FetchData(ok) => s.device.HasDesc?
    case Transmit => s.device.HasData?
    case WriteBack(ok) => s.device.Transmitted?
    case Advance => s.device.WroteBack? && s.x.ring.size > 0 && s.x.doorbell > 0
  }

  /** The inner loop ends: TX-done is raised, whatever ended it, and the process waits for the next
      doorbell write, even with its flag still set. */
  function Sleeping(s: State): State { s.(awake := false, irqs := s.irqs + 1) }

  function Do(s: State, step: Step): State
    requires Enabled(s, step)
  {
    match step
    case StoreAddr(addr, length) =>
      WithMem(s, Store(Mem(s), HeadAddr(s), Le(addr, 8))).(driver := AddrStored(addr, length))
    case StoreLength =>
      WithMem(s, Store(Mem(s), HeadAddr(s) + 8, Le(s.driver.length, 4)))
      .(driver := LengthStored(s.driver.addr, s.driver.length))
    case StoreOwn =>
      WithMem(s, Store(Mem(s), HeadAddr(s) + 12, Le(DESC_OWN, 4)))
      .(driver := OwnStored,
        posted := s.posted + [Post(s.driver.addr, s.driver.length,
                                   Fetch(Mem(s), s.driver.addr, s.driver.length))])
    case MoveHead => s.(head := (s.head + 1) % s.x.ring.size, driver := HeadMoved)
    case RingBell => s.(bells := s.bells + [1], driver := Idle)
    case DeliverBell =>
      s.(x := s.x.(doorbell := s.bells[0], pending := s.x.pending || s.bells[0] > 0), bells := s.bells[1..],
         awake := s.awake || s.bells[0] > 0)
    case GuestStore(at, data) => WithMem(s, Store(Mem(s), at, data))
    case FetchDesc(ok) =>
      if !s.x.pending || !Configured(s.x) then Sleeping(s.(x := s.x.(pending := false)))
      else if !ok then Sleeping(s)
      else
        var d := SlotRead(s.x.port, s.x.ring);
        if !Own(d) then Sleeping(s.(x := s.x.(pending := false))) else s.(device := HasDesc(d))
    case FetchData(ok) =>
      if ok then s.(device := HasData(s.device.desc, FrameRead(s.x.port, s.device.desc)))
      else Sleeping(s.(device := Between))
    case Transmit =>
      s.(x := s.x.(wire := s.x.wire + [s.device.data]), device := Transmitted(s.device.desc),
         log := s.log + [s.done])
    case WriteBack(ok) =>
      if ok then
        s.(x := s.x.(port := WriteFrom(s.x.port, SlotAddr(s.x.ring), EncodeDesc(Completed(s.device.desc)))),
           device := WroteBack, done := s.done + 1)
      else Sleeping(s.(device := Between, retries := s.retries + 1))
    case Advance =>
      s.(x := s.x.(ring := s.x.ring.(tail := NextTail(s.x.ring)), doorbell := s.x.doorbell - 1),
         device := Between)
  }

  /** The steps can be taken one after another. */
  predicate CanRun(s: State, steps: seq<Step>)
    decreases |steps|
  {
    |steps| == 0 || (Enabled(s, steps[0]) && CanRun(Do(s, steps[0]), steps[1..]))
  }

  function Run(s: State, steps: seq<Step>): State
    requires CanRun(s, steps)
    decreases |steps|
  {
    if |steps| == 0 then s else Run(Do(s, steps[0]), steps[1..])
  }

  /** After probe: rings zeroed and configured, nothing posted. */
  predicate Initial(s: State) {
    && WellFormed(s.x.ring) && s.x.ring.tail == 0 && s.x.port.faults == [] && s.head == 0
    && (forall i :: 0 <= i < s.x.ring.size ==> SlotsIn(s)[i] == Desc(0, 0, 0))
    && s.driver == Idle && s.device == Between && s.bells == [] && s.x.doorbell == 0 && !s.x.pending && !s.awake
    && s.x.wire == [] && s.posted == [] && s.done == 0 && s.log == [] && s.retries == 0 && s.irqs == 0
  }

  // ---- The invariant ----

  function Handed(p: Post): Desc { Desc(p.addr, p.length, DESC_OWN) }

  /** Posted frame n is still in its slot and its bytes are still in its buffer. */
  predicate InRing(s: State, n: nat)
    requires n < |s.posted| && s.x.ring.size > 0
  {
    var p := s.posted[n];
    && SlotsIn(s)[SlotOf(n, s.x.ring.size)] == Handed(p)
    && p.length <= DMA_MAX_BUF && Fetch(Mem(s), p.addr, p.length) == p.frame
    && Disjoint(p.addr, p.length, s.x.ring.base, s.x.ring.size * DESC_BYTES)
  }

  /** The OWN slots are exactly the circular interval [done, posted). */
  ghost predicate Conserved(s: State) {
    && WellFormed(s.x.ring) && s.done <= |s.posted| <= s.done + s.x.ring.size
    && (forall n :: s.done <= n < |s.posted| ==> InRing(s, n))
    && (forall i :: 0 <= i < s.x.ring.size && Own(SlotsIn(s)[i]) ==>
          exists n :: s.done <= n < |s.posted| && i == SlotOf(n, s.x.ring.size))
  }

  /** The driver's position agrees with the ring. */
  predicate DriverOk(s: State) {
    && s.x.ring.size > 0
    && s.head == (if s.driver.OwnStored? && |s.posted| > 0 then SlotOf(|s.posted| - 1, s.x.ring.size)
                  else SlotOf(|s.posted|, s.x.ring.size))
    && (s.driver.OwnStored? ==> |s.posted| > 0)
    && (s.driver.AddrStored? || s.driver.LengthStored? ==>
          var d := SlotsIn(s)[s.head];
          && |s.posted| < s.done + s.x.ring.size
          && d.addr == s.driver.addr && (s.driver.LengthStored? ==> d.length == s.driver.length)
          && s.driver.length <= DMA_MAX_BUF
          && Disjoint(s.driver.addr, s.driver.length, s.x.ring.base, s.x.ring.size * DESC_BYTES))
  }

  /** The device's position agrees with the ring: it only ever holds the oldest posted frame. */
  predicate DeviceOk(s: State) {
    && s.x.ring.size > 0 && s.x.port.faults == []
    && s.x.ring.tail == (if s.device.WroteBack? && s.done > 0 then SlotOf(s.done - 1, s.x.ring.size)
                         else SlotOf(s.done, s.x.ring.size))
    && (s.device.WroteBack? ==> s.done > 0)
    && (!s.device.Between? ==> s.x.doorbell > 0)
    && (s.device.HasDesc? || s.device.HasData? || s.device.Transmitted? ==>
          s.done < |s.posted| && s.device.desc == Handed(s.posted[s.done]))
    && (s.device.HasData? ==> s.device.data == s.posted[s.done].frame)
  }

  /** Transmission j is of the first frame, or of the same frame as the one before, or of the next. */
  predicate Follows(log: seq<nat>, j: nat)
    requires j < |log|
  {
    if j == 0 then log[0] == 0 else log[j] == log[j - 1] || log[j] == log[j - 1] + 1
  }

  /** Every transmission is of a posted frame; they start with the first and go forward one at a
      time, repeating only the frame at the tail, once for each failed write-back. */
  ghost predicate LogOk(s: State) {
    && |s.log| == |s.x.wire| == s.done + s.retries + (if s.device.Transmitted? then 1 else 0)
    && (forall j :: 0 <= j < |s.log| ==> s.log[j] < |s.posted| && s.x.wire[j] == s.posted[s.log[j]].frame)
    && (forall j :: 0 <= j < |s.log| ==> Follows(s.log, j))
    && (if |s.log| == 0 then s.done == 0
        else s.log[|s.log| - 1] == s.done || (s.log[|s.log| - 1] == s.done - 1 && !s.device.Transmitted?))
    && (s.retries == 0 ==> forall j :: 0 <= j < |s.log| ==> s.log[j] == j)
  }

  ghost predicate Inv(s: State) { Conserved(s) && DriverOk(s) && DeviceOk(s) && LogOk(s) }
}
