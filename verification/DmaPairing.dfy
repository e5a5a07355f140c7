/** How PcieBridge::dma_read finds its response: one flag and one buffer shared with the socket thread,
    which also lowers the flag for every DMA-write acknowledgement. The NIC thread holds the register
    mutex while it waits, so the socket thread cannot get past an MMIO request until the wait is over. */
module DmaPairing {
  import opened Bits
  import opened GuestMemory
  import opened Protocol
  import opened DmaPath
  import opened ScBridge
  import opened Sequences

  datatype Option<T> = None | Some(value: T)

  /** The NIC thread inside dma_read, and what it has got so far. */
  datatype Thread = Idle | Waiting(addr: nat, buf: seq<u8>)

  datatype State = State(
    thread: Thread,
    pending: bool, resp: seq<u8>,     // m_dma_pending, m_dma_resp
    toQemu: seq<ToQemu>, toSc: seq<ToSc>,
    mem: Memory,
    // history
    served: Option<Memory>,           // guest memory when QEMU served the read now waiting
    outcome: Option<seq<u8>>)         // buf of the last dma_read that returned true

  datatype Step =
    | IssueWrite(addr: nat, data: seq<u8>)
    | QemuServes                      // the I/O thread handles the next message
    | SocketThread                    // the socket thread handles the next message
    | HostSends(req: ToSc)            // an MMIO request enters the stream
    | GuestStores(addr: nat, data: seq<u8>)
    | Return
    | Timeout

  predicate IsMmio(m: ToSc) { m.ReadReq? || m.WriteReq? }

  function RequestOf(m: ToQemu): seq<ToQemu> { if m.DmaRead? || m.DmaWrite? then [m] else [] }

  function ReplyIn(m: ToSc): seq<ToSc> { if IsMmio(m) then [] else [m] }

  /** The DMA messages on their way to QEMU. */
  function Requests(q: seq<ToQemu>): seq<ToQemu> {
    if |q| == 0 then [] else RequestOf(q[0]) + Requests(q[1..])
  }

  /** The DMA responses on their way back. */
  function Replies(q: seq<ToSc>): seq<ToSc> {
    if |q| == 0 then [] else ReplyIn(q[0]) + Replies(q[1..])
  }

  predicate Enabled(s: State, step: Step) {
    match step
    case IssueWrite(_, _) => s.thread.Idle?
    case QemuServes => |s.toQemu| > 0
    case SocketThread => |s.toSc| > 0 && (IsMmio(s.toSc[0]) ==> s.thread.Idle?)
    case HostSends(req) => IsMmio(req)
    case GuestStores(_, _) => true
    case Return => s.thread.Waiting? && !s.pending
    case Timeout => s.thread.Waiting? && s.pending
  }

  function Do(s: State, step: Step): State
    requires Enabled(s, step)
  {
    match step
    case IssueWrite(a, d) => s.(toQemu := s.toQemu + [DmaWrite(a, d)])
    case QemuServes =>
      // a waiting thread sends nothing more, so the last request in the stream is the one it waits for
      var m := s.toQemu[0];
      s.(toQemu := s.toQemu[1..], toSc := s.toSc + ReplyTo(s.mem, m),
         mem := MemoryAfter(s.mem, m),
         served := if m.DmaRead? && s.thread.Waiting? && Requests(s.toQemu[1..]) == [] then Some(s.mem) else s.served)
    case SocketThread =>
      var m := s.toSc[0];
      if m.DmaData? then s.(toSc := s.toSc[1..], resp := m.bytes, pending := false)
      else if m.DmaAck? then s.(toSc := s.toSc[1..], pending := false)
      else s.(toSc := s.toSc[1..])
    case HostSends(req) => s.(toSc := s.toSc + [req])
    case GuestStores(a, d) => s.(mem := Store(s.mem, a, d))
    case Return => s.(thread := Idle, outcome := Some(CopyOut(s.resp, s.thread.buf)))
    case Timeout => s.(thread := Idle)
  }

  function CopyOut(resp: seq<u8>, buf: seq<u8>): seq<u8> {
    var n := Min(|resp|, |buf|);
    resp[..n] + buf[n..]
  }

  /** dma_read up to the wait. */
  function Issue(s: State, addr: nat, buf: seq<u8>): State
    requires |buf| < TWO32
  {
    s.(thread := Waiting(addr, buf), pending := true, resp := [],
       toQemu := s.toQemu + [DmaRead(addr, |buf|)], served := None)
  }

  predicate CanRun(s: State, steps: seq<Step>)
    decreases |steps|
  {
    |steps| == 0 || (Enabled(s, steps[0]) && CanRun(Do(s, steps[0]), steps[1..]))
  }

  function Run(s: State, steps: seq<Step>): State
    requires CanRun(s, steps)
    decreases |steps|
  {
    if |steps| == 0 then s else Run(Do(s, steps[0]), steps[1..])
  }

  lemma {:induction false} RequestsPush(q: seq<ToQemu>, m: ToQemu)
    ensures Requests(q + [m]) == Requests(q) + RequestOf(m)
  {
    if |q| == 0 {
      assert (q + [m])[1..] == [];
    } else {
      assert (q + [m])[1..] == q[1..] + [m];
      RequestsPush(q[1..], m);
    }
  }

  lemma {:induction false} RepliesPush(q: seq<ToSc>, m: ToSc)
    ensures Replies(q + [m]) == Replies(q) + ReplyIn(m)
  {
    if |q| == 0 {
      assert (q + [m])[1..] == [];
    } else {
      assert (q + [m])[1..] == q[1..] + [m];
      RepliesPush(q[1..], m);
    }
  }

  // ---- When nothing is owed ----

  /** Every DMA message sent so far has been answered and the answer consumed. */
  predicate NothingOwed(s: State) { Requests(s.toQemu) == [] && Replies(s.toSc) == [] }

  /** The waiting read and its response, alone in the machinery. */
  predicate Paired(s: State) {
    && s.thread.Waiting? && |s.thread.buf| < TWO32
    && var addr, n := s.thread.addr, |s.thread.buf|;
       match s.served
       case None => s.pending && s.resp == [] && Requests(s.toQemu) == [DmaRead(addr, n)] && Replies(s.toSc) == []
       case Some(m) =>
         && Requests(s.toQemu) == []
         && (if s.pending then s.resp == [] && Replies(s.toSc) == [DmaData(ServeRead(m, addr, n))]
             else s.resp == ServeRead(m, addr, n) && Replies(s.toSc) == [])
  }

  lemma PairedStarts(s: State, addr: nat, buf: seq<u8>)
    requires s.thread.Idle? && NothingOwed(s) && |buf| < TWO32
    ensures Paired(Issue(s, addr, buf))
  {
    RequestsPush(s.toQemu, DmaRead(addr, |buf|));
  }

  lemma PairedKept(s: State, step: Step)
    requires Paired(s) && Enabled(s, step) && !step.Return? && !step.Timeout?
    ensures Do(s, step).thread == s.thread && Paired(Do(s, step))
  {
    match step
    case QemuServes => ServingKeeps(s);
    case SocketThread => DeliveringKeeps(s);
    case HostSends(req) => RepliesPush(s.toSc, req);
    case _ =>
  }

  lemma ServingKeeps(s: State)
    requires Paired(s) && |s.toQemu| > 0
    ensures Paired(Do(s, QemuServes))
  {
    var m := s.toQemu[0];
    var r := ReplyTo(s.mem, m);
    if s.served.None? { Single(RequestOf(m), Requests(s.toQemu[1..]), DmaRead(s.thread.addr, |s.thread.buf|)); }
    if m.DmaRead? {
      RepliesPush(s.toSc, r[0]);
    } else {
      assert s.toSc + r == s.toSc;
    }
  }

  lemma DeliveringKeeps(s: State)
    requires Paired(s) && Enabled(s, SocketThread)
    ensures Paired(Do(s, SocketThread))
  {
    var m := s.toSc[0];
    if s.served.Some? && s.pending {
      Single(ReplyIn(m), Replies(s.toSc[1..]), DmaData(ServeRead(s.served.value, s.thread.addr, |s.thread.buf|)));
    }
  }

  predicate NoExit(steps: seq<Step>) { forall i :: 0 <= i < |steps| ==> !steps[i].Return? && !steps[i].Timeout? }

  predicate NoGuestStores(steps: seq<Step>) { forall i :: 0 <= i < |steps| ==> !steps[i].GuestStores? }

  lemma {:induction false} PairedRuns(s: State, steps: seq<Step>)
    requires Paired(s) && CanRun(s, steps) && NoExit(steps)
    ensures Run(s, steps).thread == s.thread && Paired(Run(s, steps))
    decreases |steps|
  {
    if |steps| > 0 {
      PairedKept(s, steps[0]);
      PairedRuns(Do(s, steps[0]), steps[1..]);
    }
  }

  /** If nothing was owed when dma_read was called, then however the threads interleave, a return with
      true means that QEMU served this very read, and the buffer holds what that serving saw: the guest's
      bytes at addr, all of them when they fit one request. */
  lemma ReadGetsItsOwnResponse(s: State, addr: nat, buf: seq<u8>, steps: seq<Step>)
    requires s.thread.Idle? && NothingOwed(s) && |buf| < TWO32
    requires CanRun(Issue(s, addr, buf), steps) && NoExit(steps)
    requires Enabled(Run(Issue(s, addr, buf), steps), Return)
    ensures var t := Run(Issue(s, addr, buf), steps);
            && t.served.Some?
            && Do(t, Return).outcome == Some(Filled(t.served.value, addr, buf))
            && (|buf| <= DMA_MAX_BUF ==> Do(t, Return).outcome == Some(Fetch(t.served.value, addr, |buf|)))
            && NothingOwed(Do(t, Return))
  {
    PairedStarts(s, addr, buf);
    PairedRuns(Issue(s, addr, buf), steps);
    CopyOutIsFilled(Run(Issue(s, addr, buf), steps).served.value, addr, buf);
  }

  lemma CopyOutIsFilled(mem: Memory, addr: nat, buf: seq<u8>)
    requires |buf| < TWO32
    ensures CopyOut(ServeRead(mem, addr, |buf|), buf) == Filled(mem, addr, buf)
    ensures |buf| <= DMA_MAX_BUF ==> Filled(mem, addr, buf) == Fetch(mem, addr, |buf|)
  {
    var r := ServeRead(mem, addr, |buf|);
    assert r[..|r|] == r;
  }

  lemma {:induction false} MemoryHolds(s: State, steps: seq<Step>)
    requires Paired(s) && CanRun(s, steps) && NoExit(steps) && NoGuestStores(steps)
    requires s.served.Some? ==> s.served.value == s.mem
    ensures var t := Run(s, steps); t.mem == s.mem && (t.served.Some? ==> t.served.value == s.mem)
    decreases |steps|
  {
    if |steps| > 0 {
      PairedKept(s, steps[0]);
      if steps[0].QemuServes? && s.served.None? {
        Single(RequestOf(s.toQemu[0]), Requests(s.toQemu[1..]), DmaRead(s.thread.addr, |s.thread.buf|));
      }
      MemoryHolds(Do(s, steps[0]), steps[1..]);
    }
  }

  predicate WriteInFlight(s: State, mem: Memory, addr: nat, data: seq<u8>) {
    && s.thread.Idle?
    && (if Requests(s.toQemu) == [] then s.mem == Stored(mem, addr, data)
        else Requests(s.toQemu) == [DmaWrite(addr, data)] && s.mem == mem)
  }

  predicate NoIssue(steps: seq<Step>) { forall i :: 0 <= i < |steps| ==> !steps[i].IssueWrite? }

  lemma WriteInFlightKept(s: State, mem: Memory, addr: nat, data: seq<u8>, step: Step)
    requires WriteInFlight(s, mem, addr, data) && Enabled(s, step) && !step.IssueWrite? && !step.GuestStores?
    ensures WriteInFlight(Do(s, step), mem, addr, data)
  {
    if step.QemuServes? && Requests(s.toQemu) != [] {
      Single(RequestOf(s.toQemu[0]), Requests(s.toQemu[1..]), DmaWrite(addr, data));
    }
  }

  lemma {:induction false} WriteLands(s: State, mem: Memory, addr: nat, data: seq<u8>, steps: seq<Step>)
    requires WriteInFlight(s, mem, addr, data)
    requires CanRun(s, steps) && NoIssue(steps) && NoGuestStores(steps)
    ensures WriteInFlight(Run(s, steps), mem, addr, data)
    decreases |steps|
  {
    if |steps| > 0 {
      WriteInFlightKept(s, mem, addr, data, steps[0]);
      WriteLands(Do(s, steps[0]), mem, addr, data, steps[1..]);
    }
  }

  /** A dma_write whose acknowledgement has been consumed is seen by a following dma_read of the same
      range, unless the guest has stored something itself. */
  lemma WriteThenRead(s: State, addr: nat, data: seq<u8>, buf: seq<u8>, acked: seq<Step>, steps: seq<Step>)
    requires s.thread.Idle? && NothingOwed(s) && |data| == |buf| <= DMA_MAX_BUF
    requires CanRun(Do(s, IssueWrite(addr, data)), acked) && NoIssue(acked) && NoGuestStores(acked)
    requires NothingOwed(Run(Do(s, IssueWrite(addr, data)), acked))
    requires var w := Run(Do(s, IssueWrite(addr, data)), acked);
             && CanRun(Issue(w, addr, buf), steps) && NoExit(steps) && NoGuestStores(steps)
             && Enabled(Run(Issue(w, addr, buf), steps), Return)
    ensures var w := Run(Do(s, IssueWrite(addr, data)), acked);
            Do(Run(Issue(w, addr, buf), steps), Return).outcome == Some(data)
  {
    RequestsPush(s.toQemu, DmaWrite(addr, data));
    WriteLands(Do(s, IssueWrite(addr, data)), s.mem, addr, data, acked);
    var w := Run(Do(s, IssueWrite(addr, data)), acked);
    PairedStarts(w, addr, buf);
    MemoryHolds(Issue(w, addr, buf), steps);
    ReadGetsItsOwnResponse(w, addr, buf, steps);
    assert data[..|data|] == data;
    FetchStored(s.mem, addr, data);
  }

  /** A guest store that comes after the request and before QEMU serves it is what the read brings back. */
  lemma LateStoreIsRead(s: State, addr: nat, data: seq<u8>, buf: seq<u8>)
    requires s.thread.Idle? && s.toQemu == [] && s.toSc == [] && |data| == |buf| <= DMA_MAX_BUF
    ensures var steps := [GuestStores(addr, data), QemuServes, SocketThread, Return];
            CanRun(Issue(s, addr, buf), steps) && Run(Issue(s, addr, buf), steps).outcome == Some(data)
  {
    var steps := [GuestStores(addr, data), QemuServes, SocketThread, Return];
    var s1 := Do(Issue(s, addr, buf), steps[0]);
    var s2 := Do(s1, QemuServes);
    var s3 := Do(s2, SocketThread);
    var s4 := Do(s3, Return);
    FetchStored(s.mem, addr, data);
    CopyOutIsFilled(s1.mem, addr, buf);
    assert steps[1..][1..] == steps[2..] && steps[2..][1..] == steps[3..] && steps[3..][1..] == [];
    assert CanRun(s3, steps[3..]) && Run(s3, steps[3..]) == s4;
    assert CanRun(s2, steps[2..]) && Run(s2, steps[2..]) == s4;
    assert CanRun(s1, steps[1..]) && Run(s1, steps[1..]) == s4;
  }

  // ---- Exactly when a read can go wrong, or never come back ----

  /** A reply to something older can reach the socket thread before this read's own. */
  predicate Exposed(s: State) {
    if |s.toSc| > 0 then !IsMmio(s.toSc[0]) else Requests(s.toQemu) != []
  }

  /** No schedule lets dma_read return true before QEMU has served it. */
  ghost predicate AlwaysOwn(s: State, addr: nat, buf: seq<u8>)
    requires |buf| < TWO32
  {
    forall steps :: CanRun(Issue(s, addr, buf), steps) && NoExit(steps)
                    && Enabled(Run(Issue(s, addr, buf), steps), Return)
                    ==> Run(Issue(s, addr, buf), steps).served.Some?
  }

  /** The socket thread is stuck behind an MMIO request until the wait ends. */
  predicate Stuck(s: State) { s.thread.Waiting? && s.pending && |s.toSc| > 0 && IsMmio(s.toSc[0]) }

  lemma {:induction false} StuckStays(s: State, steps: seq<Step>)
    requires Stuck(s) && CanRun(s, steps) && NoExit(steps)
    ensures Stuck(Run(s, steps))
    decreases |steps|
  {
    if |steps| > 0 { StuckStays(Do(s, steps[0]), steps[1..]); }
  }

  lemma {:induction false} RunJoin(s: State, a: seq<Step>, b: Step)
    requires CanRun(s, a) && Enabled(Run(s, a), b)
    ensures CanRun(s, a + [b]) && Run(s, a + [b]) == Do(Run(s, a), b)
    decreases |a|
  {
    if |a| == 0 {
      assert (a + [b])[1..] == [];
    } else {
      assert (a + [b])[1..] == a[1..] + [b];
      RunJoin(Do(s, a[0]), a[1..], b);
    }
  }

  lemma {:induction false} ServeUntilReply(s: State) returns (steps: seq<Step>)
    requires s.thread.Waiting? && s.toSc == [] && Requests(s.toQemu) != []
    ensures CanRun(s, steps) && NoExit(steps)
    ensures var t := Run(s, steps);
            && t.thread == s.thread && |t.toSc| > 0 && !IsMmio(t.toSc[0])
            && (|Requests(s.toQemu)| > 1 ==> t.served == s.served)
    decreases |s.toQemu|
  {
    var t := Do(s, QemuServes);
    if RequestOf(s.toQemu[0]) == [] {
      var rest := ServeUntilReply(t);
      steps := [QemuServes] + rest;
    } else {
      steps := [QemuServes];
    }
  }

  lemma ReplyFreesTheReader(s: State) returns (steps: seq<Step>)
    requires s.thread.Waiting? && (if |s.toSc| > 0 then !IsMmio(s.toSc[0]) else Requests(s.toQemu) != [])
    ensures CanRun(s, steps) && NoExit(steps) && Enabled(Run(s, steps), Return)
    ensures |s.toSc| > 0 || |Requests(s.toQemu)| > 1 ==> Run(s, steps).served == s.served
  {
    steps := [];
    if |s.toSc| == 0 { steps := ServeUntilReply(s); }
    RunJoin(s, steps, SocketThread);
    steps := steps + [SocketThread];
  }

  /** dma_read can be ended by a reply that is not its own exactly when it is issued with an older reply
      owed and no MMIO request in front of it. */
  lemma PairingExact(s: State, addr: nat, buf: seq<u8>)
    requires s.thread.Idle? && |buf| < TWO32
    ensures AlwaysOwn(s, addr, buf) <==> !Exposed(s)
  {
    var w := Issue(s, addr, buf);
    RequestsPush(s.toQemu, DmaRead(addr, |buf|));
    if Exposed(s) {
      var steps := ReplyFreesTheReader(w);
      assert Run(w, steps).served.None?;
    } else {
      forall steps | CanRun(w, steps) && NoExit(steps) && Enabled(Run(w, steps), Return)
        ensures Run(w, steps).served.Some?
      {
        if |s.toSc| > 0 { StuckStays(w, steps); } else { PairedRuns(w, steps); }
      }
    }
  }

  /** In particular a dma_read straight after a dma_write, as in the drain loop, is exposed. */
  lemma ReadAfterWriteIsExposed(s: State, addr: nat, data: seq<u8>, addr': nat, buf: seq<u8>)
    requires s.thread.Idle? && s.toSc == [] && |buf| < TWO32
    ensures !AlwaysOwn(Do(s, IssueWrite(addr, data)), addr', buf)
  {
    RequestsPush(s.toQemu, DmaWrite(addr, data));
    PairingExact(Do(s, IssueWrite(addr, data)), addr', buf);
  }

  ghost predicate CanFinish(s: State) {
    exists steps :: CanRun(s, steps) && NoExit(steps) && Enabled(Run(s, steps), Return)
  }

  /** A waiting read that owns the machinery can come back without a timeout exactly when no MMIO request
      is at the head of the stream it waits on. */
  lemma FinishExact(s: State)
    requires Paired(s)
    ensures CanFinish(s) <==> !Stuck(s)
  {
    if Stuck(s) {
      forall steps | CanRun(s, steps) && NoExit(steps) ensures !Enabled(Run(s, steps), Return) {
        StuckStays(s, steps);
      }
    } else if s.pending {
      var steps := ReplyFreesTheReader(s);
    } else {
      var steps: seq<Step> := [];
      assert CanRun(s, steps) && NoExit(steps) && Enabled(Run(s, steps), Return);
    }
  }
}
