/** The transmit process over the message-level channel, with a driver that posts a packet only after it
    has read TX-done for the one before. The acknowledgement of a write-back can end someone else's read
    (DmaPairing); for this driver it never does, because it is on its way before TX-done can be seen and
    so reaches the socket thread ahead of the next doorbell write. */
module TxChannel {
  import opened Bits
  import opened GuestMemory
  import opened Protocol
  import opened DmaPath
  import opened Rings
  import opened ScBridge
  import opened Sequences
  import D = DmaPairing

  /** Where process_tx is; the register mutex is free in Asleep, Ready and LoopEnded. */
  datatype Phase =
    | Asleep
    | Ready                           // top of the inner loop
    | AwaitDesc(at: u64)
    | AwaitData(at: u64, desc: Desc)
    | LoopEnded                       // about to raise TX-done

  /** The guest has at most one register read outstanding. */
  datatype Guest = Free | AwaitSts | AwaitOther | HasSts(done: bool)

  datatype State = State(
    ch: D.State,          // the NIC thread's DMA machinery, both streams, guest memory
    phase: Phase,
    doorbell: u32,
    rung: bool,           // notified while about to raise TX-done
    done: bool,           // the TX-done bit of IRQ_STS
    waits: bool,          // the driver has posted and not yet read TX-done
    guest: Guest,
    wire: seq<Frame>)

  datatype Step =
    | Post
    | ReadSts
    | TakeSts
    | ReadOther(addr: nat)
    | WriteOther(addr: nat, word: u32)
    | GuestStores(addr: nat, data: seq<u8>)
    | QemuServes
    | SocketThread
    | NextPass(at: u64)
    | DescArrives
    | DataArrives
    | RaiseDone
    | Resend(vector: u32)

  predicate Elsewhere(addr: nat) { addr != SC_REG_IRQ_STS && addr != SC_REG_TX_DOORBELL }

  predicate Enabled(s: State, step: Step) {
    match step
    case Post => s.guest.Free? && !s.waits
    case ReadSts => s.guest.Free?
    case TakeSts => s.guest.HasSts?
    case ReadOther(addr) => s.guest.Free? && Elsewhere(addr)
    case WriteOther(addr, _) => s.guest.Free? && Elsewhere(addr)
    case GuestStores(_, _) => true
    case QemuServes => |s.ch.toQemu| > 0
    case SocketThread => D.Enabled(s.ch, D.SocketThread)
    case NextPass(_) => s.phase.Ready? && s.ch.thread.Idle?
    case DescArrives => s.phase.AwaitDesc? && D.Enabled(s.ch, D.Return)
    case DataArrives => s.phase.AwaitData? && D.Enabled(s.ch, D.Return)
    case RaiseDone => s.phase.LoopEnded?
    case Resend(_) => true
  }

  function ToNic(s: State, m: ToSc): State
    requires D.IsMmio(m)
  {
    s.(ch := D.Do(s.ch, D.HostSends(m)))
  }

  function ToHost(s: State, ms: seq<ToQemu>): State { s.(ch := s.ch.(toQemu := s.ch.toQemu + ms)) }

  /** The socket thread executes a register access. */
  function Execute(s: State, m: ToSc): State
    requires D.IsMmio(m)
  {
    match m
    case ReadReq(addr) =>
      ToHost(s, [ReadResp(if addr == SC_REG_IRQ_STS && s.done then SC_IRQ_TX_DONE else 0, SC_STATUS_OK)])
    case WriteReq(addr, w) =>
      if addr == SC_REG_TX_DOORBELL then
        ToHost(s, [WriteAck]).(doorbell := w,
                               phase := if s.phase.Asleep? && w > 0 then Ready else s.phase,
                               rung := s.rung || (s.phase.LoopEnded? && w > 0))
      else if addr == SC_REG_IRQ_STS then
        ToHost(s, [Msi(0), WriteAck]).(done := s.done && w != SC_IRQ_TX_DONE)
      else ToHost(s, [WriteAck])
    case _ => s
  }

  /** The guest side of a message the I/O thread handles. */
  function Answered(g: Guest, m: ToQemu): Guest {
    if !m.ReadResp? then g
    else if g.AwaitSts? then HasSts(m.value == SC_IRQ_TX_DONE)
    else if g.AwaitOther? then Free
    else g
  }

  function Bytes(o: D.Option<seq<u8>>): seq<u8> { if o.Some? then o.value else [] }

  /** The descriptor a finished read brought back. */
  function Arrived(ch: D.State): Desc {
    var b := Bytes(ch.outcome);
    if |b| == DESC_BYTES then DecodeDesc(b) else Desc(0, 0, 0)
  }

  function Do(s: State, step: Step): State
    requires Enabled(s, step)
  {
    match step
    case Post => ToNic(s, WriteReq(SC_REG_TX_DOORBELL, 1)).(waits := true)
    case ReadSts => ToNic(s, ReadReq(SC_REG_IRQ_STS)).(guest := AwaitSts)
    case TakeSts =>
      if s.guest.done then ToNic(s, WriteReq(SC_REG_IRQ_STS, SC_IRQ_TX_DONE)).(guest := Free, waits := false)
      else s.(guest := Free)
    case ReadOther(addr) => ToNic(s, ReadReq(addr)).(guest := AwaitOther)
    case WriteOther(addr, w) => ToNic(s, WriteReq(addr, w))
    case GuestStores(addr, data) => s.(ch := D.Do(s.ch, D.GuestStores(addr, data)))
    case QemuServes =>
      s.(ch := D.Do(s.ch, D.QemuServes), guest := Answered(s.guest, s.ch.toQemu[0]))
    case SocketThread =>
      var t := s.(ch := D.Do(s.ch, D.SocketThread));
      if D.IsMmio(s.ch.toSc[0]) then Execute(t, s.ch.toSc[0]) else t
    case NextPass(at) =>
      if s.doorbell == 0 then s.(phase := LoopEnded)
      else s.(ch := D.Issue(s.ch, at, Zeros(DESC_BYTES)), phase := AwaitDesc(at))
    case DescArrives =>
      var ch := D.Do(s.ch, D.Return);
      var desc := Arrived(ch);
      if Own(desc) then
        s.(ch := D.Issue(ch, desc.addr, Zeros(desc.length)), phase := AwaitData(s.phase.at, desc))
      else s.(ch := ch, phase := LoopEnded)
    case DataArrives =>
      var ch := D.Do(s.ch, D.Return);
      s.(ch := D.Do(ch, D.IssueWrite(s.phase.at, EncodeDesc(Completed(s.phase.desc)))),
         wire := s.wire + [Bytes(ch.outcome)], doorbell := if s.doorbell > 0 then s.doorbell - 1 else 0, phase := Ready)
    case RaiseDone => ToHost(s, [Msi(1)]).(done := true, rung := false, phase := if s.rung then Ready else Asleep)
    case Resend(v) => ToHost(s, [Msi(v)])
  }

  predicate CanRun(s: State, steps: seq<Step>)
    decreases |steps|
  {
    |steps| == 0 || (Enabled(s, steps[0]) && CanRun(Do(s, steps[0]), steps[1..]))
  }

  function Run(s: State, steps: seq<Step>): State
    requires CanRun(s, steps)
    decreases |steps|
  {
    if |steps| == 0 then s else Run(Do(s, steps[0]), steps[1..])
  }

  predicate Initial(s: State) {
    && s.ch.thread.Idle? && s.ch.toQemu == [] && s.ch.toSc == []
    && s.phase.Asleep? && !s.rung && !s.done && !s.waits && s.guest.Free? && s.wire == []
  }

  // ---- What is in the stream to the NIC ----

  predicate IsBell(m: ToSc) { m.WriteReq? && m.addr == SC_REG_TX_DOORBELL }

  predicate IsClear(m: ToSc) { m.WriteReq? && m.addr == SC_REG_IRQ_STS }

  predicate IsStsRead(m: ToSc) { m.ReadReq? && m.addr == SC_REG_IRQ_STS }

  /** A register access other than a doorbell write or a status clear. */
  predicate IsPlain(m: ToSc) { D.IsMmio(m) && !IsBell(m) && !IsClear(m) }

  predicate Plain(q: seq<ToSc>) { forall i :: 0 <= i < |q| ==> IsPlain(q[i]) }

  predicate NoBells(q: seq<ToSc>) { forall i :: 0 <= i < |q| ==> !IsBell(q[i]) }

  /** There is one doorbell write, and everything that matters is ahead of it. */
  predicate BellLast(q: seq<ToSc>) {
    |q| > 0 && if IsBell(q[0]) then q[0].word == 1 && Plain(q[1..]) else BellLast(q[1..])
  }

  /** Will a status read in the stream be answered with TX-done, if nothing raises it meanwhile? */
  predicate SeesDone(done: bool, q: seq<ToSc>)
    decreases |q|
  {
    |q| > 0 &&
    ((IsStsRead(q[0]) && done) || SeesDone(done && !(IsClear(q[0]) && q[0].word == SC_IRQ_TX_DONE), q[1..]))
  }

  /** The bit once the stream has been executed, if nothing raises it meanwhile. */
  predicate DoneAfter(done: bool, q: seq<ToSc>)
    decreases |q|
  {
    if |q| == 0 then done else DoneAfter(done && !(IsClear(q[0]) && q[0].word == SC_IRQ_TX_DONE), q[1..])
  }

  function Reads(q: seq<ToSc>): nat { if |q| == 0 then 0 else (if q[0].ReadReq? then 1 else 0) + Reads(q[1..]) }

  function Resps(q: seq<ToQemu>): nat { if |q| == 0 then 0 else (if q[0].ReadResp? then 1 else 0) + Resps(q[1..]) }

  predicate IsTruth(m: ToQemu) { m.ReadResp? && m.value == SC_IRQ_TX_DONE }

  predicate NoTruths(q: seq<ToQemu>) { forall i :: 0 <= i < |q| ==> !IsTruth(q[i]) }

  /** No DMA request is behind a response that shows TX-done. */
  predicate TruthBehind(q: seq<ToQemu>) {
    |q| == 0 || ((IsTruth(q[0]) ==> D.Requests(q[1..]) == []) && TruthBehind(q[1..]))
  }
}
