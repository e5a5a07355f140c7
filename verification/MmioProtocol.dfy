/** The MMIO bridge as a concurrent system: the guest's vCPU thread, QEMU's I/O thread, QEMU's main
    loop, the SystemC socket thread and the device's own activity, with the big lock, the MMIO mutex and
    the socket mutex explicit, and a FIFO stream in each direction. One guest access is in progress at a
    time. Both ends are connected. */
module MmioProtocol {
  import opened Bits
  import opened GuestMemory
  import opened Protocol
  import opened DmaPath
  import opened RegisterBlock
  import opened SmartNic
  import opened ScBridge

  datatype Owner = Free | ByGuest | ByIo | ByMain

  /** The vCPU thread. Names say what it is about to do; the comment says which locks it holds. */
  datatype Guest =
    | Running
    | ReadLock(addr: nat)                // big lock
    | ReadFlag(addr: nat)                // big lock, MMIO mutex
    | ReadSockLock(addr: nat)            // big lock
    | ReadSend(addr: nat)                // big lock, socket mutex
    | ReadUnlock(addr: nat)              // big lock
    | WaitLock(addr: nat)                // none
    | WaitCheck(addr: nat)               // MMIO mutex
    | Asleep(addr: nat)                  // none
    | ReadRelock(addr: nat, val: u32)    // none
    | ReadReturn(addr: nat, val: u32)    // big lock
    | WriteCache(addr: nat, word: u32)   // big lock
    | WriteSockLock(addr: nat, word: u32) // big lock
    | WriteSend(addr: nat, word: u32)    // big lock, socket mutex
    | WriteReturn                        // big lock

  /** What the I/O thread answers a DMA request with. */
  type Reply = m: ToSc | m.DmaData? || m.DmaAck? witness DmaAck

  /** QEMU's I/O thread. */
  datatype Io =
    | Receive
    | RespLock(val: u32)
    | RespStore(val: u32)                // MMIO mutex
    | DmaReadLock(addr: nat, len: u32)
    | DmaReadServe(addr: nat, len: u32)  // big lock
    | DmaWriteLock(addr: nat, data: seq<u8>)
    | DmaWriteServe(addr: nat, data: seq<u8>) // big lock
    | ReplyLock(reply: Reply)
    | ReplySend(reply: Reply)            // socket mutex
    | MsiLock(vector: u32)
    | MsiNotify(vector: u32)             // big lock

  /** A guest access that reaches the device. */
  datatype Access = OpRead(addr: nat) | OpWrite(addr: nat, word: u32)

  /** One entry of the device's own history. */
  datatype Item = Ran(op: Access) | Changed(before: Nic, after: Nic)

  datatype State = State(
    guest: Guest, io: Io,
    bql: Owner, mmioMtx: Owner, sockMtx: Owner,
    pending: bool, respData: u32,
    cache: Regs,
    toSc: seq<ToSc>, toQemu: seq<ToQemu>,
    nic: Nic, mem: Memory,
    // history
    start: Nic,
    issued: seq<Access>,     // accesses sent, in program order
    returned: seq<u32>,      // what reads gave the guest
    log: seq<Item>)          // what the device did

  datatype Step =
    | StartRead(addr: nat)
    | StartWrite(addr: nat, word: u32)
    | GuestGo
    | SpuriousWake
    | IoGo
    | PeerGo
    | DeviceGo(after: Nic, msgs: seq<ToQemu>)
    | MainTake
    | MainRelease

  // ---- Registers only the host changes ----

  predicate HostOwned(i: nat) {
    i < REG_WORDS
    && i !in {SC_REG_STATUS / 4, SC_REG_IRQ_STS / 4, SC_REG_MAC_LO / 4, SC_REG_MAC_HI / 4, SC_REG_DMA_STS / 4,
              SC_REG_DEV_ID / 4, SC_REG_IRQ_TEST / 4, SC_REG_TX_DOORBELL / 4, SC_REG_TX_TAIL / 4, SC_REG_RX_TAIL / 4}
  }

  predicate Agree(a: Regs, b: Regs) { forall i :: 0 <= i < REG_WORDS && HostOwned(i) ==> a[i] == b[i] }

  /** What the device's processes do between register accesses. */
  predicate DeviceUpdate(n: Nic, n': Nic) {
    Agree(n.rb.regs, n'.rb.regs) && n'.rb.mac == n.rb.mac && !n'.dma.busy
  }

  // ---- The guest thread ----

  predicate GuestCan(s: State) {
    match s.guest
    case Running => false
    case Asleep(_) => false
    case ReadLock(_) => s.mmioMtx == Free
    case ReadSockLock(_) => s.sockMtx == Free
    case WaitLock(_) => s.mmioMtx == Free
    case ReadRelock(_, _) => s.bql == Free
    case WriteSockLock(_, _) => s.sockMtx == Free
    case _ => true
  }

  function GuestStep(s: State): State
    requires GuestCan(s)
  {
    match s.guest
    case ReadLock(a) => s.(mmioMtx := ByGuest, guest := ReadFlag(a))
    case ReadFlag(a) => s.(pending := true, mmioMtx := Free, guest := ReadSockLock(a))
    case ReadSockLock(a) => s.(sockMtx := ByGuest, guest := ReadSend(a))
    case ReadSend(a) => s.(toSc := s.toSc + [ReadReq(a)], issued := s.issued + [OpRead(a)],
                           sockMtx := Free, guest := ReadUnlock(a))
    case ReadUnlock(a) => s.(bql := Free, guest := WaitLock(a))
    case WaitLock(a) => s.(mmioMtx := ByGuest, guest := WaitCheck(a))
    case WaitCheck(a) =>
      if s.pending then s.(mmioMtx := Free, guest := Asleep(a))
      else s.(mmioMtx := Free, guest := ReadRelock(a, s.respData))
    case ReadRelock(a, v) => s.(bql := ByGuest, guest := ReadReturn(a, v))
    case ReadReturn(a, v) =>
      s.(cache := if a < SC_REG_COUNT then Set(s.cache, a, v) else s.cache,
         returned := s.returned + [v], bql := Free, guest := Running)
    case WriteCache(a, w) =>
      s.(cache := CacheWrite(s.cache, a, w), guest := if Forwarded(a) then WriteSockLock(a, w) else WriteReturn)
    case WriteSockLock(a, w) => s.(sockMtx := ByGuest, guest := WriteSend(a, w))
    case WriteSend(a, w) => s.(toSc := s.toSc + [WriteReq(a, w)], issued := s.issued + [OpWrite(a, w)],
                               sockMtx := Free, guest := WriteReturn)
    case WriteReturn => s.(bql := Free, guest := Running)
  }

  // ---- The I/O thread ----

  predicate IoCan(s: State) {
    match s.io
    case Receive => |s.toQemu| > 0
    case RespLock(_) => s.mmioMtx == Free
    case DmaReadLock(_, _) => s.bql == Free
    case DmaWriteLock(_, _) => s.bql == Free
    case ReplyLock(_) => s.sockMtx == Free
    case MsiLock(_) => s.bql == Free
    case _ => true
  }

  function Dispatch(msg: ToQemu): Io {
    match msg
    case ReadResp(v, _) => RespLock(v)
    case WriteAck => Receive
    case DmaRead(a, len) => DmaReadLock(a, len)
    case DmaWrite(a, d) => DmaWriteLock(a, d)
    case Msi(v) => MsiLock(v)
  }

  /** Signalling the condition variable moves a sleeping reader to re-acquiring the mutex. */
  function Signalled(g: Guest): Guest {
    if g.Asleep? then WaitLock(g.addr) else g
  }

  function IoStep(s: State): State
    requires IoCan(s)
  {
    match s.io
    case Receive => s.(toQemu := s.toQemu[1..], io := Dispatch(s.toQemu[0]))
    case RespLock(v) => s.(mmioMtx := ByIo, io := RespStore(v))
    case RespStore(v) =>
      s.(respData := v, pending := false, guest := Signalled(s.guest), mmioMtx := Free, io := Receive)
    case DmaReadLock(a, n) => s.(bql := ByIo, io := DmaReadServe(a, n))
    case DmaReadServe(a, n) => s.(bql := Free, io := ReplyLock(DmaData(ServeRead(s.mem, a, n))))
    case DmaWriteLock(a, d) => s.(bql := ByIo, io := DmaWriteServe(a, d))
    case DmaWriteServe(a, d) => s.(mem := Stored(s.mem, a, d), bql := Free, io := ReplyLock(DmaAck))
    case ReplyLock(m) => s.(sockMtx := ByIo, io := ReplySend(m))
    case ReplySend(m) => s.(toSc := s.toSc + [m], sockMtx := Free, io := Receive)
    case MsiLock(v) => s.(bql := ByIo, io := MsiNotify(v))
    case MsiNotify(v) => s.(bql := Free, io := Receive)
  }

  // ---- The SystemC socket thread ----

  function PeerStep(s: State): State
    requires |s.toSc| > 0
  {
    var rest := s.toSc[1..];
    match s.toSc[0]
    case ReadReq(a) =>
      s.(toSc := rest, toQemu := s.toQemu + [ReadResp(MmioRead(s.nic, a), SC_STATUS_OK)],
         log := s.log + [Ran(OpRead(a))])
    case WriteReq(a, w) =>
      s.(toSc := rest, nic := MmioWrite(s.nic, a, w),
         toQemu := s.toQemu + (if IrqChanged(a, w) then [Msi(0)] else []) + [WriteAck],
         log := s.log + [Ran(OpWrite(a, w))])
    case DmaData(_) => s.(toSc := rest)
    case DmaAck => s.(toSc := rest)
  }

  /** Messages the device sends on its own account. */
  predicate Unprompted(msgs: seq<ToQemu>) {
    forall i :: 0 <= i < |msgs| ==> msgs[i].DmaRead? || msgs[i].DmaWrite? || msgs[i].Msi?
  }

  predicate Enabled(s: State, step: Step) {
    match step
    case StartRead(a) => s.guest.Running? && s.bql == Free && a < SC_REG_COUNT
    case StartWrite(a, _) => s.guest.Running? && s.bql == Free && a < SC_REG_COUNT
    case GuestGo => GuestCan(s)
    case SpuriousWake => s.guest.Asleep?
    case IoGo => IoCan(s)
    case PeerGo => |s.toSc| > 0
    case DeviceGo(after, msgs) => DeviceUpdate(s.nic, after) && Unprompted(msgs)
    case MainTake => s.bql == Free
    case MainRelease => s.bql == ByMain
  }

  function Do(s: State, step: Step): State
    requires Enabled(s, step)
  {
    match step
    case StartRead(a) => s.(bql := ByGuest, guest := ReadLock(a))
    case StartWrite(a, w) => s.(bql := ByGuest, guest := WriteCache(a, w))
    case GuestGo => GuestStep(s)
    case SpuriousWake => s.(guest := Signalled(s.guest))
    case IoGo => IoStep(s)
    case PeerGo => PeerStep(s)
    case DeviceGo(after, msgs) =>
      s.(nic := after, toQemu := s.toQemu + msgs, log := s.log + [Changed(s.nic, after)])
    case MainTake => s.(bql := ByMain)
    case MainRelease => s.(bql := Free)
  }

  predicate CanRun(s: State, steps: seq<Step>)
    decreases |steps|
  {
    |steps| == 0 || (Enabled(s, steps[0]) && CanRun(Do(s, steps[0]), steps[1..]))
  }

  function Run(s: State, steps: seq<Step>): State
    requires CanRun(s, steps)
    decreases |steps|
  {
    if |steps| == 0 then s else Run(Do(s, steps[0]), steps[1..])
  }

  /** Connected, quiet, and agreeing on the registers the host owns. */
  predicate Initial(s: State) {
    && s.guest.Running? && s.io.Receive? && s.bql == Free && s.mmioMtx == Free && s.sockMtx == Free
    && !s.pending && s.toSc == [] && s.toQemu == []
    && Agree(s.nic.rb.regs, s.cache) && !s.nic.dma.busy
    && s.start == s.nic && s.issued == [] && s.returned == [] && s.log == []
  }

  /** A fresh bridge and a fresh device are such a pair. */
  lemma FreshPairAgrees(p: Port)
    ensures Agree(PowerOn(p).rb.regs, InitialCache())
  {
  }

  // ---- The atomic register block the system is compared with ----

  function AtomicStep(n: Nic, item: Item): Nic {
    match item
    case Ran(OpRead(_)) => n
    case Ran(OpWrite(a, w)) => MmioWrite(n, a, w)
    case Changed(_, after) => after
  }

  function AtomicRun(n: Nic, log: seq<Item>): Nic {
    if |log| == 0 then n else AtomicStep(AtomicRun(n, log[..|log| - 1]), log[|log| - 1])
  }

  /** The values an atomic device would give to the reads in the log, executed one after another. */
  function AtomicReads(n: Nic, log: seq<Item>): seq<u32> {
    if |log| == 0 then [] else
    var before, last := log[..|log| - 1], log[|log| - 1];
    AtomicReads(n, before)
    + (if last.Ran? && last.op.OpRead? then [MmioRead(AtomicRun(n, before), last.op.addr)] else [])
  }

  /** The device changes in the log are ones its own processes make, from the state it was in. */
  predicate AtomicLegal(n: Nic, log: seq<Item>) {
    |log| == 0
    || (AtomicLegal(n, log[..|log| - 1])
        && (log[|log| - 1].Changed? ==>
              && log[|log| - 1].before == AtomicRun(n, log[..|log| - 1])
              && DeviceUpdate(log[|log| - 1].before, log[|log| - 1].after)))
  }

  /** The guest accesses in the log. */
  function Program(log: seq<Item>): seq<Access> {
    if |log| == 0 then [] else
    Program(log[..|log| - 1]) + (if log[|log| - 1].Ran? then [log[|log| - 1].op] else [])
  }
}
