/** What the MMIO bridge guarantees, over every interleaving of its threads. */
module MmioTheorems {
  import opened Bits
  import opened GuestMemory
  import opened Protocol
  import opened DmaPath
  import opened RegisterBlock
  import opened SmartNic
  import opened ScBridge
  import opened MmioProtocol
  import opened MmioProof
  import opened Sequences

  // ---- Linearizability ----

  function AskedBy(step: Step): seq<Access> {
    match step
    case StartRead(a) => [OpRead(a)]
    case StartWrite(a, w) => if Forwarded(a) then [OpWrite(a, w)] else []
    case _ => []
  }

  /** The guest program: its accesses, in the order the run starts them. Writes to registers the
      bridge keeps to itself are left out (see SkippedWritesDoNothing). */
  function Asked(steps: seq<Step>): seq<Access> {
    if |steps| == 0 then [] else AskedBy(steps[0]) + Asked(steps[1..])
  }

  /** The access the guest has begun but not yet put into the stream. */
  function Begun(g: Guest): seq<Access> {
    match g
    case ReadLock(a) => [OpRead(a)]
    case ReadFlag(a) => [OpRead(a)]
    case ReadSockLock(a) => [OpRead(a)]
    case ReadSend(a) => [OpRead(a)]
    case WriteCache(a, w) => if Forwarded(a) then [OpWrite(a, w)] else []
    case WriteSockLock(a, w) => [OpWrite(a, w)]
    case WriteSend(a, w) => [OpWrite(a, w)]
    case _ => []
  }

  lemma GuestIssues(g: Guest, pending: bool, resp: u32)
    ensures Sending(g) + Begun(GuestNext(g, pending, resp)) == Begun(g)
  {
  }

  lemma StepIssues(s: State, step: Step)
    requires Enabled(s, step)
    ensures Do(s, step).start == s.start
    ensures Do(s, step).issued + Begun(Do(s, step).guest) == s.issued + Begun(s.guest) + AskedBy(step)
  {
    var t := Do(s, step);
    match step
    case GuestGo =>
      GuestParts(s);
      GuestIssues(s.guest, s.pending, s.respData);
      assert s.issued + Sending(s.guest) + Begun(t.guest) == s.issued + (Sending(s.guest) + Begun(t.guest));
    case IoGo => IoParts(s);
    case _ =>
  }

  lemma {:induction false} RunIssues(s: State, steps: seq<Step>)
    requires CanRun(s, steps)
    ensures Run(s, steps).start == s.start
    ensures Run(s, steps).issued + Begun(Run(s, steps).guest) == s.issued + Begun(s.guest) + Asked(steps)
    decreases |steps|
  {
    if |steps| > 0 {
      StepIssues(s, steps[0]);
      RunIssues(Do(s, steps[0]), steps[1..]);
      Regroup(s.issued + Begun(s.guest), AskedBy(steps[0]), Asked(steps[1..]));
    }
  }

  /** Every run is one of an atomic device: executing the guest's accesses one at a time in program
      order, with the device's own changes in between, gives the device's present state and gives each
      read the value the guest got. What the device has not yet executed is the tail of the program:
      posted writes, and at most the one read being waited for. */
  lemma Linearizable(s: State, steps: seq<Step>)
    requires MmioProtocol.Initial(s) && CanRun(s, steps)
    ensures var t := Run(s, steps);
            && AtomicLegal(s.nic, t.log) && AtomicRun(s.nic, t.log) == t.nic
            && Program(t.log) + Ops(t.toSc) + Begun(t.guest) == Asked(steps)
            && t.returned <= AtomicReads(s.nic, t.log)
            && (t.guest.Running? ==> t.returned == AtomicReads(s.nic, t.log) && Reads(Ops(t.toSc)) == 0)
  {
    InitialInv(s);
    RunKeeps(s, steps);
    RunIssues(s, steps);
  }

  // ---- The register cache ----

  /** At every moment of every run, applying the posted writes in order to the device would give the
      host-owned registers exactly their cached values. */
  lemma CacheCoherent(s: State, steps: seq<Step>)
    requires MmioProtocol.Initial(s) && CanRun(s, steps)
    ensures var t := Run(s, steps);
            Agree(After(t.nic, Ops(t.toSc) + Unsent(t.guest)).rb.regs, t.cache)
  {
    InitialInv(s);
    RunKeeps(s, steps);
  }

  /** So a forwarded read of such a register returns what the cache already had, and storing it
      back changes nothing. */
  lemma ReadReturnsCached(s: State, steps: seq<Step>)
    requires MmioProtocol.Initial(s) && CanRun(s, steps)
    requires var g := Run(s, steps).guest; g.ReadReturn? && HostOwned(g.addr / 4)
    ensures var t := Run(s, steps);
            t.guest.val == t.cache[t.guest.addr / 4] && GuestStep(t).cache == t.cache
  {
    InitialInv(s);
    RunKeeps(s, steps);
    GuestParts(Run(s, steps));
  }

  /** The processes of the device make only the changes the runs above allow: a DMA completion, a single
      pass of the transmit loop (the mutex is free between passes) as well as a whole drain, the TX-done
      interrupt, and a received packet. */
  lemma OwnProcessesAreUpdates(n: Nic, f: Rings.Frame)
    requires !n.dma.busy
    ensures n.dma.len <= DMA_MAX_BUF ==> DeviceUpdate(n, DmaStep(n))
    ensures DeviceUpdate(n, PutTx(n, Rings.Pass(TxOf(n))))
    ensures DeviceUpdate(n, TxDrain(n)) && DeviceUpdate(n, TxDone(n))
    ensures DeviceUpdate(n, RxPacket(n, f))
  {
    PutTxIsUpdate(n, Rings.Pass(TxOf(n)));
    PutTxIsUpdate(n, Rings.Drain(TxOf(n)));
    RxIsUpdate(n, f);
  }

  lemma PutTxIsUpdate(n: Nic, x: Rings.Tx)
    requires !n.dma.busy
    ensures DeviceUpdate(n, PutTx(n, x))
  {
  }

  lemma RxIsUpdate(n: Nic, f: Rings.Frame)
    requires !n.dma.busy
    ensures DeviceUpdate(n, RxPacket(n, f))
  {
    RxDoneIsUpdate(PutRx(n, Rings.Deliver(RxOf(n), f)));
  }

  lemma RxDoneIsUpdate(n: Nic)
    requires !n.dma.busy
    ensures DeviceUpdate(n, RxDone(n))
  {
  }

  // ---- The pending flag ----

  /** The flag is up exactly while a request or its response exists, apart from the moment between
      raising it and sending; there is never more than one; and nobody sleeps on a lowered flag. */
  lemma PendingExact(s: State, steps: seq<Step>)
    requires MmioProtocol.Initial(s) && CanRun(s, steps)
    ensures var t := Run(s, steps);
            && InTransit(t) <= 1
            && (t.pending <==> InTransit(t) == 1 || t.guest.ReadSockLock? || t.guest.ReadSend?)
            && (InTransit(t) == 1 ==> Waiting(t.guest))
            && (t.guest.Asleep? ==> t.pending)
  {
    InitialInv(s);
    RunKeeps(s, steps);
  }

  // ---- No deadlock ----

  predicate Quiet(s: State) { s.guest.Running? && s.io.Receive? && s.toSc == [] && s.toQemu == [] }

  /** The QEMU side never locks up: while anything is unfinished, some thread can take a step
      (unless the main loop is holding the big lock, which it gives back). */
  lemma NoDeadlock(s: State, steps: seq<Step>)
    requires MmioProtocol.Initial(s) && CanRun(s, steps)
    requires !Quiet(Run(s, steps)) && Run(s, steps).bql != ByMain
    ensures var t := Run(s, steps); GuestCan(t) || IoCan(t) || |t.toSc| > 0
  {
    InitialInv(s);
    RunKeeps(s, steps);
    InvMoves(Run(s, steps));
  }

  lemma InvMoves(s: State)
    requires LockInv(s) && ReadInv(s.guest, s.pending, Ops(s.toSc), Vals(s)) && !Quiet(s) && s.bql != ByMain
    ensures GuestCan(s) || IoCan(s) || |s.toSc| > 0
  {
    if s.io.Receive? && |s.toQemu| == 0 && |s.toSc| == 0 {
      assert Ops(s.toSc) == [] && Vals(s) == [];
    }
  }

  // ---- Progress of a read ----

  function PreSend(g: Guest): nat {
    match g
    case ReadLock(_) => 4
    case ReadFlag(_) => 3
    case ReadSockLock(_) => 2
    case ReadSend(_) => 1
    case _ => 0
  }

  function PostSend(g: Guest): nat {
    match g
    case ReadUnlock(_) => 6
    case WaitLock(_) => 5
    case WaitCheck(_) => 4
    case Asleep(_) => 3
    case ReadRelock(_, _) => 2
    case ReadReturn(_, _) => 1
    case _ => 0
  }

  predicate InRead(g: Guest) { PreSend(g) > 0 || PostSend(g) > 0 }

  /** Messages up to and including the read request; 0 if there is none. */
  function Position(q: seq<ToSc>): nat {
    if |q| == 0 then 0 else if q[0].ReadReq? then 1
    else var p := Position(q[1..]); if p == 0 then 0 else p + 1
  }

  /** Steps of the I/O thread until it is ready to receive. */
  function IoLeft(io: Io): nat {
    match io
    case Receive => 0
    case RespLock(_) => 2
    case RespStore(_) => 1
    case DmaReadLock(_, _) => 4
    case DmaReadServe(_, _) => 3
    case DmaWriteLock(_, _) => 4
    case DmaWriteServe(_, _) => 3
    case ReplyLock(_) => 2
    case ReplySend(_) => 1
    case MsiLock(_) => 2
    case MsiNotify(_) => 1
  }

  /** Steps an I/O thread ready to receive needs to have stored the response; 0 if there is none. */
  function Distance(q: seq<ToQemu>): nat {
    if |q| == 0 then 0 else if q[0].ReadResp? then 3
    else var d := Distance(q[1..]); if d == 0 then 0 else d + 5
  }

  function ToAnswer(io: Io, q: seq<ToQemu>): nat {
    if IoVal(io) != [] then IoLeft(io) else if Distance(q) == 0 then 0 else Distance(q) + IoLeft(io)
  }

  /** What still has to happen before the reader returns, most significant part first: the guest
      sends the request, the socket thread reaches it, the I/O thread stores the response, the guest
      picks it up. */
  datatype Rank = Rank(presend: nat, position: nat, answer: nat, postsend: nat)

  function RankOf(s: State): Rank {
    Rank(PreSend(s.guest), Position(s.toSc), ToAnswer(s.io, s.toQemu), PostSend(s.guest))
  }

  predicate Less(a: Rank, b: Rank) {
    || a.presend < b.presend
    || (a.presend == b.presend &&
        (|| a.position < b.position
         || (a.position == b.position &&
             (|| a.answer < b.answer
              || (a.answer == b.answer && a.postsend < b.postsend)))))
  }

  lemma {:induction false} PositionMeaning(q: seq<ToSc>)
    ensures Position(q) > 0 <==> Reads(Ops(q)) > 0
  {
    if |q| > 0 {
      PositionMeaning(q[1..]);
      ReadsJoin(OpsOf(q[0]), Ops(q[1..]));
      if q[0].ReadReq? { assert OpsOf(q[0])[..0] == []; }
      if q[0].WriteReq? { assert OpsOf(q[0])[..0] == []; }
    }
  }

  lemma {:induction false} DistanceMeaning(q: seq<ToQemu>)
    ensures Distance(q) > 0 <==> Resps(q) != []
  {
    if |q| > 0 { DistanceMeaning(q[1..]); }
  }

  lemma {:induction false} PositionPush(q: seq<ToSc>, m: ToSc)
    requires !m.ReadReq?
    ensures Position(q + [m]) == Position(q)
  {
    if |q| == 0 {
      assert (q + [m])[1..] == [];
    } else {
      assert (q + [m])[1..] == q[1..] + [m];
      PositionPush(q[1..], m);
    }
  }

  lemma {:induction false} DistancePush(q: seq<ToQemu>, r: seq<ToQemu>)
    requires Resps(r) == []
    ensures Distance(q + r) == Distance(q)
  {
    if |q| == 0 {
      assert q + r == r;
      DistanceMeaning(r);
    } else {
      assert (q + r)[1..] == q[1..] + r;
      DistancePush(q[1..], r);
    }
  }

  lemma GuestAdvances(s: State)
    requires Inv(s) && InRead(s.guest) && GuestCan(s)
    ensures Less(RankOf(GuestStep(s)), RankOf(s))
  {
  }

  /** With no response about, the I/O thread's work does not count; with one, each step brings it closer. */
  lemma IoAnswer(s: State)
    requires |Vals(s)| <= 1 && IoCan(s)
    ensures var t := IoStep(s);
            if Vals(s) != [] then ToAnswer(t.io, t.toQemu) < ToAnswer(s.io, s.toQemu)
            else ToAnswer(t.io, t.toQemu) == ToAnswer(s.io, s.toQemu)
  {
    DistanceMeaning(s.toQemu);
    DistanceMeaning(IoStep(s).toQemu);
  }

  lemma IoAdvances(s: State)
    requires Inv(s) && InRead(s.guest) && IoCan(s)
    ensures var t := IoStep(s);
            if Vals(s) != [] then Less(RankOf(t), RankOf(s)) else RankOf(t) == RankOf(s)
  {
    IoAnswer(s);
    IoParts(s);
    if s.io.ReplySend? { PositionPush(s.toSc, s.io.reply); }
    assert Position(IoStep(s).toSc) == Position(s.toSc);
  }

  lemma PeerPosition(s: State)
    requires Inv(s) && |s.toSc| > 0
    ensures Position(s.toSc[1..]) == if Position(s.toSc) > 0 then Position(s.toSc) - 1 else 0
  {
    if s.toSc[0].ReadReq? {
      PeerStreams(s);
      ReadIsLast(s.guest, s.pending, Ops(s.toSc), Vals(s), OpRead(s.toSc[0].addr), Ops(s.toSc[1..]));
      PositionMeaning(s.toSc[1..]);
    }
  }

  lemma PeerAnswers(s: State)
    requires |s.toSc| > 0 && Position(s.toSc) == 0
    ensures Distance(PeerStep(s).toQemu) == Distance(s.toQemu)
  {
    match s.toSc[0]
    case WriteReq(a, w) =>
      var msi := if IrqChanged(a, w) then [Msi(0)] else [];
      DistancePush(s.toQemu, msi);
      DistancePush(s.toQemu + msi, [WriteAck]);
    case _ =>
  }

  lemma PeerMoves(s: State)
    requires |s.toSc| > 0
    ensures var t := PeerStep(s);
            t.guest == s.guest && t.io == s.io && t.toSc == s.toSc[1..]
  {
  }

  lemma PeerAdvances(s: State)
    requires Inv(s) && InRead(s.guest) && |s.toSc| > 0
    ensures var t := PeerStep(s);
            if Position(s.toSc) > 0 then Less(RankOf(t), RankOf(s)) else RankOf(t) == RankOf(s)
  {
    PeerMoves(s);
    PeerPosition(s);
    if Position(s.toSc) == 0 { PeerAnswers(s); }
    RankMoves(s, PeerStep(s));
  }

  lemma RankMoves(s: State, t: State)
    requires t.guest == s.guest && t.io == s.io
    ensures Position(t.toSc) < Position(s.toSc) ==> Less(RankOf(t), RankOf(s))
    ensures Position(t.toSc) == Position(s.toSc) && Distance(t.toQemu) == Distance(s.toQemu) ==> RankOf(t) == RankOf(s)
  {
  }

  /** No step other than a spurious wake-up moves a reader further from its return, and the step of
      whoever holds the read strictly brings it closer: the guest whenever it can step, the socket
      thread while the request is in the stream, the I/O thread once the response exists. */
  lemma ReaderProgress(s: State, steps: seq<Step>, step: Step)
    requires MmioProtocol.Initial(s) && CanRun(s, steps) && Enabled(Run(s, steps), step)
    requires InRead(Run(s, steps).guest) && !step.SpuriousWake?
    ensures var t := Run(s, steps);
            var t' := Do(t, step);
            && (Less(RankOf(t'), RankOf(t)) || RankOf(t') == RankOf(t))
            && (step.GuestGo? ==> Less(RankOf(t'), RankOf(t)))
            && (step.PeerGo? && Position(t.toSc) > 0 ==> Less(RankOf(t'), RankOf(t)))
            && (step.IoGo? && Vals(t) != [] ==> Less(RankOf(t'), RankOf(t)))
  {
    InitialInv(s);
    RunKeeps(s, steps);
    StepProgress(Run(s, steps), step);
  }

  lemma StepProgress(s: State, step: Step)
    requires Inv(s) && Enabled(s, step) && InRead(s.guest) && !step.SpuriousWake?
    ensures var t := Do(s, step);
            && (Less(RankOf(t), RankOf(s)) || RankOf(t) == RankOf(s))
            && (step.GuestGo? ==> Less(RankOf(t), RankOf(s)))
            && (step.PeerGo? && Position(s.toSc) > 0 ==> Less(RankOf(t), RankOf(s)))
            && (step.IoGo? && Vals(s) != [] ==> Less(RankOf(t), RankOf(s)))
  {
    match step
    case GuestGo => GuestAdvances(s);
    case IoGo => IoAdvances(s);
    case PeerGo => PeerAdvances(s);
    case DeviceGo(after, msgs) =>
      UnpromptedHasNoResps(msgs);
      DistancePush(s.toQemu, msgs);
    case _ =>
  }

  /** Someone always holds the read: a reader that cannot step itself has its request in the stream, its
      response on the way, or is waiting for a lock whose holder is another thread. */
  lemma SomeoneHoldsTheRead(s: State, steps: seq<Step>)
    requires MmioProtocol.Initial(s) && CanRun(s, steps) && InRead(Run(s, steps).guest)
    ensures var t := Run(s, steps);
            || GuestCan(t)
            || Position(t.toSc) > 0
            || Vals(t) != []
            || t.bql == ByMain
            || (IoCan(t) && (t.bql == ByIo || t.mmioMtx == ByIo || t.sockMtx == ByIo))
  {
    InitialInv(s);
    RunKeeps(s, steps);
    PositionMeaning(Run(s, steps).toSc);
  }
}
