/** With such a driver every DMA read of the transmit process gets its own response. */
module TxChannelProof {
  import opened Bits
  import opened GuestMemory
  import opened Protocol
  import opened DmaPath
  import opened Rings
  import opened ScBridge
  import opened Sequences
  import opened TxChannel
  import D = DmaPairing

  // ---- The streams, one message at a time ----

  lemma {:induction false} SeesPush(done: bool, q: seq<ToSc>, m: ToSc)
    ensures SeesDone(done, q + [m]) <==> SeesDone(done, q) || (IsStsRead(m) && DoneAfter(done, q))
    ensures DoneAfter(done, q + [m]) <==> DoneAfter(done, q) && !(IsClear(m) && m.word == SC_IRQ_TX_DONE)
    decreases |q|
  {
    if |q| == 0 {
      assert (q + [m])[1..] == [];
    } else {
      assert (q + [m])[1..] == q[1..] + [m];
      SeesPush(done && !(IsClear(q[0]) && q[0].word == SC_IRQ_TX_DONE), q[1..], m);
    }
  }

  lemma {:induction false} ReadsPush(q: seq<ToSc>, m: ToSc)
    ensures Reads(q + [m]) == Reads(q) + if m.ReadReq? then 1 else 0
  {
    if |q| == 0 {
      assert (q + [m])[1..] == [];
    } else {
      assert (q + [m])[1..] == q[1..] + [m];
      ReadsPush(q[1..], m);
    }
  }

  lemma {:induction false} NoReadsNoneSeen(done: bool, q: seq<ToSc>)
    requires Reads(q) == 0
    ensures !SeesDone(done, q)
    decreases |q|
  {
    if |q| > 0 { NoReadsNoneSeen(done && !(IsClear(q[0]) && q[0].word == SC_IRQ_TX_DONE), q[1..]); }
  }

  lemma {:induction false} PlainIsQuiet(done: bool, q: seq<ToSc>)
    requires Plain(q)
    ensures D.Replies(q) == [] && NoBells(q) && DoneAfter(done, q) == done
    decreases |q|
  {
    if |q| > 0 { PlainIsQuiet(done, q[1..]); }
  }

  lemma {:induction false} BellLastPush(q: seq<ToSc>, m: ToSc)
    requires if BellLast(q) then IsPlain(m) else NoBells(q) && IsBell(m) && m.word == 1
    ensures BellLast(q + [m])
  {
    if |q| == 0 {
      assert (q + [m])[1..] == [];
    } else {
      assert (q + [m])[1..] == q[1..] + [m];
      if !IsBell(q[0]) { BellLastPush(q[1..], m); }
    }
  }

  lemma {:induction false} HostPush(q: seq<ToQemu>, m: ToQemu)
    requires D.RequestOf(m) == []
    ensures D.Requests(q + [m]) == D.Requests(q) && Resps(q + [m]) == Resps(q) + if m.ReadResp? then 1 else 0
    ensures TruthBehind(q) ==> TruthBehind(q + [m])
    ensures NoTruths(q) && !IsTruth(m) ==> NoTruths(q + [m])
  {
    if |q| == 0 {
      assert (q + [m])[1..] == [];
    } else {
      assert (q + [m])[1..] == q[1..] + [m];
      HostPush(q[1..], m);
      assert NoTruths(q) ==> NoTruths(q[1..]);
    }
  }

  lemma {:induction false} NoTruthsBehind(q: seq<ToQemu>)
    requires NoTruths(q)
    ensures TruthBehind(q)
  {
    if |q| > 0 { NoTruthsBehind(q[1..]); }
  }

  lemma {:induction false} NoRespsNoTruths(q: seq<ToQemu>)
    requires Resps(q) == 0
    ensures NoTruths(q)
  {
    if |q| > 0 {
      NoRespsNoTruths(q[1..]);
      assert forall i :: 1 <= i < |q| ==> q[i] == q[1..][i - 1];
    }
  }

  // ---- The invariant ----

  function Outstanding(g: Guest): nat { if g.AwaitSts? || g.AwaitOther? then 1 else 0 }

  predicate OneRead(s: State) { Reads(s.ch.toSc) + Resps(s.ch.toQemu) == Outstanding(s.guest) }

  /** No sign of TX-done is about: neither in the guest's hands nor on its way there. */
  predicate NothingShown(s: State) { s.guest != HasSts(true) && NoTruths(s.ch.toQemu) }

  /** Asleep, every write-back served, and no read in the stream will see TX-done. */
  predicate Settled(s: State) {
    && s.ch.thread.Idle? && s.phase.Asleep? && D.Requests(s.ch.toQemu) == [] && NothingShown(s)
    && !SeesDone(s.done, s.ch.toSc) && !DoneAfter(s.done, s.ch.toSc)
  }

  /** The driver is free to post. */
  predicate Idle(s: State) { !s.waits && Settled(s) && NoBells(s.ch.toSc) }

  /** Its doorbell write is on its way, behind every acknowledgement. */
  predicate Ringing(s: State) { s.waits && Settled(s) && BellLast(s.ch.toSc) }

  /** The device has a credit, and its reads have the machinery to themselves. */
  predicate Working(s: State) {
    && s.waits && NoBells(s.ch.toSc) && !s.done && NothingShown(s) && s.doorbell == 1
    && (match s.phase
        case Ready => s.ch.thread.Idle? && D.NothingOwed(s.ch)
        case AwaitDesc(at) => D.Paired(s.ch) && s.ch.thread == D.Waiting(at, Zeros(DESC_BYTES))
        case AwaitData(_, desc) => D.Paired(s.ch) && s.ch.thread == D.Waiting(desc.addr, Zeros(desc.length))
        case _ => false)
  }

  /** The packet is out; the write-back may still be on its way. */
  predicate Finishing(s: State) {
    && s.waits && NoBells(s.ch.toSc) && !s.done && NothingShown(s) && s.ch.thread.Idle?
    && (s.phase.LoopEnded? || (s.phase.Ready? && s.doorbell == 0))
  }

  /** TX-done has been raised; the guest can see it only once the write-back has been served. */
  predicate Finished(s: State) {
    && s.waits && NoBells(s.ch.toSc) && s.ch.thread.Idle? && s.phase.Asleep?
    && TruthBehind(s.ch.toQemu) && (s.guest == HasSts(true) ==> D.Requests(s.ch.toQemu) == [])
  }

  predicate Inv(s: State) {
    && OneRead(s) && !s.rung
    && (Idle(s) || Ringing(s) || Working(s) || Finishing(s) || Finished(s))
  }

  lemma StartsRight(s: State)
    requires Initial(s)
    ensures Inv(s)
  {
  }

  // ---- Messages between guest and NIC that leave the DMA machinery alone ----

  lemma PlainPush(q: seq<ToSc>, done: bool, m: ToSc)
    requires IsPlain(m)
    ensures NoBells(q) ==> NoBells(q + [m])
    ensures BellLast(q) ==> BellLast(q + [m])
    ensures SeesDone(done, q + [m]) ==> SeesDone(done, q) || DoneAfter(done, q)
    ensures DoneAfter(done, q + [m]) == DoneAfter(done, q)
    ensures Reads(q + [m]) == Reads(q) + if m.ReadReq? then 1 else 0
    ensures D.Replies(q + [m]) == D.Replies(q)
  {
    SeesPush(done, q, m);
    ReadsPush(q, m);
    D.RepliesPush(q, m);
    if BellLast(q) { BellLastPush(q, m); }
  }

  /** A register access enters the stream. */
  lemma PushKeeps(s: State, g: Guest, m: ToSc)
    requires Inv(s) && IsPlain(m) && s.guest.Free?
    requires g == (if m.WriteReq? then Free else if IsStsRead(m) then AwaitSts else AwaitOther)
    ensures Inv(s.(ch := s.ch.(toSc := s.ch.toSc + [m]), guest := g))
  {
    PlainPush(s.ch.toSc, s.done, m);
  }

  lemma PostKeeps(s: State)
    requires Inv(s) && Enabled(s, Post)
    ensures Inv(Do(s, Post))
  {
    var m := WriteReq(SC_REG_TX_DOORBELL, 1);
    ReadsPush(s.ch.toSc, m);
    SeesPush(s.done, s.ch.toSc, m);
    NoBellsNotLast(s.ch.toSc);
    BellLastPush(s.ch.toSc, m);
  }

  lemma {:induction false} NoBellsNotLast(q: seq<ToSc>)
    requires NoBells(q)
    ensures !BellLast(q)
  {
    if |q| > 0 { NoBellsNotLast(q[1..]); }
  }

  /** Taking TX-done makes the driver free: by now the write-back has been served, and the clear goes out
      ahead of anything it will post. */
  lemma TakeDoneKeeps(s: State)
    requires Inv(s) && s.guest == HasSts(true)
    ensures Inv(Do(s, TakeSts))
  {
    var m := WriteReq(SC_REG_IRQ_STS, SC_IRQ_TX_DONE);
    ReadsPush(s.ch.toSc, m);
    SeesPush(s.done, s.ch.toSc, m);
    NoReadsNoneSeen(s.done, s.ch.toSc);
    NoRespsNoTruths(s.ch.toQemu);
  }

  /** A message of the device that is neither a DMA request nor shows TX-done. */
  lemma ToHostKeeps(s: State, m: ToQemu)
    requires Inv(s) && D.RequestOf(m) == [] && !m.ReadResp?
    ensures Inv(ToHost(s, [m]))
  {
    HostPush(s.ch.toQemu, m);
  }

  // ---- The I/O thread ----

  lemma NothingToServe(s: State)
    requires |s.ch.toQemu| > 0 && D.Requests(s.ch.toQemu) == []
    ensures D.Do(s.ch, D.QemuServes) == s.ch.(toQemu := s.ch.toQemu[1..]) && D.Requests(s.ch.toQemu[1..]) == []
    ensures D.RequestOf(s.ch.toQemu[0]) == []
  {
    var m := s.ch.toQemu[0];
    assert D.RequestOf(m) + D.Requests(s.ch.toQemu[1..]) == [];
    assert s.ch.toSc + [] == s.ch.toSc;
  }

  lemma ServeQuiet(s: State)
    requires Inv(s) && |s.ch.toQemu| > 0 && D.Requests(s.ch.toQemu) == [] && !s.ch.thread.Waiting?
    ensures Inv(Do(s, QemuServes))
  {
    NothingToServe(s);
  }

  lemma ServeWaiting(s: State)
    requires Inv(s) && |s.ch.toQemu| > 0 && s.ch.thread.Waiting?
    ensures Inv(Do(s, QemuServes))
  {
    D.PairedKept(s.ch, D.QemuServes);
    ServeReads(s);
  }

  lemma ServedStreams(ch: D.State)
    requires |ch.toQemu| > 0
    ensures var ch' := D.Do(ch, D.QemuServes);
            && ch'.toQemu == ch.toQemu[1..]
            && Reads(ch'.toSc) == Reads(ch.toSc) && (NoBells(ch.toSc) ==> NoBells(ch'.toSc))
  {
    var r := ReplyTo(ch.mem, ch.toQemu[0]);
    if |r| == 1 {
      assert r == [r[0]];
      ReadsPush(ch.toSc, r[0]);
    } else {
      assert ch.toSc + r == ch.toSc;
    }
  }

  lemma ServeReads(s: State)
    requires OneRead(s) && |s.ch.toQemu| > 0
    ensures OneRead(Do(s, QemuServes))
    ensures NoBells(s.ch.toSc) ==> NoBells(Do(s, QemuServes).ch.toSc)
  {
    ServedStreams(s.ch);
  }

  /** Serving a write-back: nobody has been shown TX-done before it. */
  lemma ServeLate(s: State)
    requires Inv(s) && (Finishing(s) || Finished(s)) && |s.ch.toQemu| > 0
    ensures Inv(Do(s, QemuServes))
  {
    ServeReads(s);
  }

  lemma ServeKeeps(s: State)
    requires Inv(s) && |s.ch.toQemu| > 0
    ensures Inv(Do(s, QemuServes))
  {
    if s.ch.thread.Waiting? {
      ServeWaiting(s);
    } else if D.Requests(s.ch.toQemu) == [] {
      ServeQuiet(s);
    } else {
      ServeLate(s);
    }
  }

  // ---- The socket thread ----

  lemma PoppedStreams(q: seq<ToSc>, done: bool)
    requires |q| > 0
    ensures NoBells(q) ==> NoBells(q[1..])
    ensures BellLast(q) && !IsBell(q[0]) ==> BellLast(q[1..])
    ensures BellLast(q) && IsBell(q[0]) ==> Plain(q[1..])
    ensures IsStsRead(q[0]) && done ==> SeesDone(done, q)
    ensures !SeesDone(done, q) ==> !SeesDone(done && !(IsClear(q[0]) && q[0].word == SC_IRQ_TX_DONE), q[1..])
    ensures DoneAfter(done, q) == DoneAfter(done && !(IsClear(q[0]) && q[0].word == SC_IRQ_TX_DONE), q[1..])
    ensures Reads(q) == Reads(q[1..]) + if q[0].ReadReq? then 1 else 0
    ensures D.Replies(q) == D.ReplyIn(q[0]) + D.Replies(q[1..])
  {
  }

  lemma ReplyEffect(s: State)
    requires |s.ch.toSc| > 0 && !D.IsMmio(s.ch.toSc[0])
    ensures var ch := D.Do(s.ch, D.SocketThread);
            && Do(s, SocketThread) == s.(ch := ch)
            && ch.toSc == s.ch.toSc[1..] && ch.toQemu == s.ch.toQemu && ch.thread == s.ch.thread
  {
  }

  /** A reply, which touches nothing but the DMA machinery. */
  lemma ReplyKeeps(s: State)
    requires Inv(s) && |s.ch.toSc| > 0 && !D.IsMmio(s.ch.toSc[0])
    ensures Inv(Do(s, SocketThread))
  {
    PoppedStreams(s.ch.toSc, s.done);
    ReplyEffect(s);
    var ch := D.Do(s.ch, D.SocketThread);
    if s.ch.thread.Waiting? { D.PairedKept(s.ch, D.SocketThread); }
    ReplyMoves(s, ch);
  }

  lemma ReplyMoves(s: State, ch: D.State)
    requires Inv(s) && |s.ch.toSc| > 0 && !D.IsMmio(s.ch.toSc[0])
    requires ch.toSc == s.ch.toSc[1..] && ch.toQemu == s.ch.toQemu && ch.thread == s.ch.thread
    requires s.ch.thread.Waiting? ==> D.Paired(ch)
    ensures Inv(s.(ch := ch))
  {
    PoppedStreams(s.ch.toSc, s.done);
  }

  lemma ReadKeeps(s: State)
    requires Inv(s) && Enabled(s, SocketThread) && s.ch.toSc[0].ReadReq?
    ensures Inv(Do(s, SocketThread))
  {
    PoppedStreams(s.ch.toSc, s.done);
    var v: u32 := if s.ch.toSc[0].addr == SC_REG_IRQ_STS && s.done then SC_IRQ_TX_DONE else 0;
    HostPush(s.ch.toQemu, ReadResp(v, SC_STATUS_OK));
  }

  /** The stream towards QEMU has only grown by messages that neither ask for DMA nor answer a read. */
  predicate OnlyNotices(q: seq<ToQemu>, q': seq<ToQemu>) {
    && D.Requests(q') == D.Requests(q) && Resps(q') == Resps(q)
    && (TruthBehind(q) ==> TruthBehind(q')) && (NoTruths(q) ==> NoTruths(q'))
  }

  /** The doorbell write comes to the head only when nothing is owed and TX-done is down. */
  lemma BellRings(s: State, t: State)
    requires Inv(s) && Enabled(s, SocketThread) && IsBell(s.ch.toSc[0])
    requires t == s.(ch := s.ch.(toSc := s.ch.toSc[1..], toQemu := t.ch.toQemu), doorbell := 1, phase := Ready)
    requires OnlyNotices(s.ch.toQemu, t.ch.toQemu)
    ensures s.ch.toSc[0].word == 1 && s.phase.Asleep? && !s.rung && Inv(t)
  {
    PoppedStreams(s.ch.toSc, s.done);
    PlainIsQuiet(s.done, s.ch.toSc[1..]);
  }

  function Popped(s: State, more: seq<ToQemu>): D.State
    requires |s.ch.toSc| > 0
  {
    s.ch.(toSc := s.ch.toSc[1..], toQemu := s.ch.toQemu + more)
  }

  lemma BellEffect(s: State)
    requires Enabled(s, SocketThread) && IsBell(s.ch.toSc[0]) && s.ch.toSc[0].word == 1 && s.phase.Asleep?
    ensures Do(s, SocketThread) == s.(ch := Popped(s, [WriteAck]), doorbell := 1, phase := Ready)
  {
  }

  lemma ClearEffect(s: State)
    requires Enabled(s, SocketThread) && IsClear(s.ch.toSc[0])
    ensures Do(s, SocketThread)
            == s.(ch := Popped(s, [Msi(0), WriteAck]), done := s.done && s.ch.toSc[0].word != SC_IRQ_TX_DONE)
  {
  }

  lemma OtherEffect(s: State)
    requires Enabled(s, SocketThread)
    requires s.ch.toSc[0].WriteReq? && !IsBell(s.ch.toSc[0]) && !IsClear(s.ch.toSc[0])
    ensures Do(s, SocketThread) == s.(ch := Popped(s, [WriteAck]))
  {
  }

  lemma BellKeeps(s: State)
    requires Inv(s) && Enabled(s, SocketThread) && IsBell(s.ch.toSc[0])
    ensures Inv(Do(s, SocketThread))
  {
    NoticeOne(s.ch.toQemu);
    BellRings(s, s.(ch := Popped(s, [WriteAck]), doorbell := 1, phase := Ready));
    BellEffect(s);
  }

  /** t is s after a write other than to the doorbell has been executed and acknowledged. */
  predicate Acked(s: State, t: State) {
    && |s.ch.toSc| > 0 && s.ch.toSc[0].WriteReq? && !IsBell(s.ch.toSc[0]) && s.ch.thread.Idle?
    && t == s.(ch := s.ch.(toSc := s.ch.toSc[1..], toQemu := t.ch.toQemu),
               done := s.done && !(IsClear(s.ch.toSc[0]) && s.ch.toSc[0].word == SC_IRQ_TX_DONE))
    && OnlyNotices(s.ch.toQemu, t.ch.toQemu)
  }

  lemma AckedSettled(s: State, t: State)
    requires Acked(s, t) && OneRead(s) && !s.rung
    ensures OneRead(t)
    ensures Idle(s) ==> Idle(t)
    ensures Ringing(s) ==> Ringing(t)
  {
    PoppedStreams(s.ch.toSc, s.done);
  }

  lemma AckedBusy(s: State, t: State)
    requires Acked(s, t)
    ensures Working(s) ==> Working(t)
    ensures Finishing(s) ==> Finishing(t)
    ensures Finished(s) ==> Finished(t)
  {
    PoppedStreams(s.ch.toSc, s.done);
  }

  lemma AckedKeeps(s: State, t: State)
    requires Inv(s) && Acked(s, t)
    ensures Inv(t)
  {
    AckedSettled(s, t);
    AckedBusy(s, t);
  }

  lemma NoticeOne(q: seq<ToQemu>)
    ensures OnlyNotices(q, q + [WriteAck])
  {
    HostPush(q, WriteAck);
  }

  lemma NoticePair(q: seq<ToQemu>)
    ensures OnlyNotices(q, q + [Msi(0), WriteAck])
  {
    HostPush(q, Msi(0));
    HostPush(q + [Msi(0)], WriteAck);
    assert q + [Msi(0)] + [WriteAck] == q + [Msi(0), WriteAck];
  }

  lemma ClearKeeps(s: State)
    requires Inv(s) && Enabled(s, SocketThread) && IsClear(s.ch.toSc[0])
    ensures Inv(Do(s, SocketThread))
  {
    NoticePair(s.ch.toQemu);
    AckedKeeps(s, s.(ch := Popped(s, [Msi(0), WriteAck]), done := s.done && s.ch.toSc[0].word != SC_IRQ_TX_DONE));
    ClearEffect(s);
  }

  lemma OtherKeeps(s: State)
    requires Inv(s) && Enabled(s, SocketThread)
    requires s.ch.toSc[0].WriteReq? && !IsBell(s.ch.toSc[0]) && !IsClear(s.ch.toSc[0])
    ensures Inv(Do(s, SocketThread))
  {
    NoticeOne(s.ch.toQemu);
    AckedKeeps(s, s.(ch := Popped(s, [WriteAck])));
    OtherEffect(s);
  }

  lemma SocketKeeps(s: State)
    requires Inv(s) && Enabled(s, SocketThread)
    ensures Inv(Do(s, SocketThread))
  {
    var m := s.ch.toSc[0];
    if !D.IsMmio(m) {
      ReplyKeeps(s);
    } else if m.ReadReq? {
      ReadKeeps(s);
    } else if IsBell(m) {
      BellKeeps(s);
    } else if IsClear(m) {
      ClearKeeps(s);
    } else {
      OtherKeeps(s);
    }
  }

  // ---- process_tx ----

  lemma {:induction false} RequestKeepsShown(q: seq<ToQemu>, m: ToQemu)
    requires !m.ReadResp?
    ensures Resps(q + [m]) == Resps(q) && (NoTruths(q) ==> NoTruths(q + [m]))
  {
    if |q| == 0 {
      assert (q + [m])[1..] == [];
    } else {
      assert (q + [m])[1..] == q[1..] + [m];
      RequestKeepsShown(q[1..], m);
    }
  }

  /** The loop goes round. A credit means it has just been woken, with nothing owed. */
  lemma NextPassKeeps(s: State, at: u64)
    requires Inv(s) && Enabled(s, NextPass(at))
    ensures Inv(Do(s, NextPass(at)))
  {
    if s.doorbell > 0 {
      D.PairedStarts(s.ch, at, Zeros(DESC_BYTES));
      RequestKeepsShown(s.ch.toQemu, DmaRead(at, DESC_BYTES));
    }
  }

  /** A finished read leaves nothing owed. */
  lemma ReturnedIsClean(ch: D.State)
    requires D.Paired(ch) && D.Enabled(ch, D.Return)
    ensures var ch' := D.Do(ch, D.Return);
            && ch'.thread.Idle? && D.NothingOwed(ch') && ch'.toQemu == ch.toQemu && ch'.toSc == ch.toSc
            && ch.served.Some?
            && ch'.outcome == D.Some(Filled(ch.served.value, ch.thread.addr, ch.thread.buf))
  {
    D.CopyOutIsFilled(ch.served.value, ch.thread.addr, ch.thread.buf);
  }

  lemma DescArrivesKeeps(s: State)
    requires Inv(s) && Enabled(s, DescArrives)
    ensures Inv(Do(s, DescArrives))
  {
    ReturnedIsClean(s.ch);
    var ch := D.Do(s.ch, D.Return);
    var desc := Arrived(ch);
    if Own(desc) {
      D.PairedStarts(ch, desc.addr, Zeros(desc.length));
      RequestKeepsShown(ch.toQemu, DmaRead(desc.addr, desc.length));
    }
  }

  lemma DataArrivesKeeps(s: State)
    requires Inv(s) && Enabled(s, DataArrives)
    ensures Inv(Do(s, DataArrives))
  {
    ReturnedIsClean(s.ch);
    RequestKeepsShown(s.ch.toQemu, DmaWrite(s.phase.at, EncodeDesc(Completed(s.phase.desc))));
  }

  lemma RaiseDoneKeeps(s: State)
    requires Inv(s) && Enabled(s, RaiseDone)
    ensures Inv(Do(s, RaiseDone))
  {
    HostPush(s.ch.toQemu, Msi(1));
    NoTruthsBehind(s.ch.toQemu);
  }

  lemma StepKeeps(s: State, step: Step)
    requires Inv(s) && Enabled(s, step)
    ensures Inv(Do(s, step))
  {
    match step
    case Post => PostKeeps(s);
    case ReadSts => PushKeeps(s, AwaitSts, ReadReq(SC_REG_IRQ_STS));
    case TakeSts => if s.guest.done { TakeDoneKeeps(s); }
    case ReadOther(addr) => PushKeeps(s, AwaitOther, ReadReq(addr));
    case WriteOther(addr, w) => PushKeeps(s, Free, WriteReq(addr, w));
    case GuestStores(addr, data) =>
    case QemuServes => ServeKeeps(s);
    case SocketThread => SocketKeeps(s);
    case NextPass(at) => NextPassKeeps(s, at);
    case DescArrives => DescArrivesKeeps(s);
    case DataArrives => DataArrivesKeeps(s);
    case RaiseDone => RaiseDoneKeeps(s);
    case Resend(v) => ToHostKeeps(s, Msi(v));
  }

  lemma {:induction false} RunKeeps(s: State, steps: seq<Step>)
    requires Inv(s) && CanRun(s, steps)
    ensures Inv(Run(s, steps))
    decreases |steps|
  {
    if |steps| > 0 {
      StepKeeps(s, steps[0]);
      RunKeeps(Do(s, steps[0]), steps[1..]);
    }
  }

  // ---- Results ----

  lemma CleanIsNotExposed(ch: D.State)
    requires D.NothingOwed(ch)
    ensures !D.Exposed(ch)
  {
    if |ch.toSc| > 0 { assert D.ReplyIn(ch.toSc[0]) + D.Replies(ch.toSc[1..]) == []; }
  }

  /** In every run, when the transmit process goes for a descriptor nothing is owed on the channel, so no
      continuation can end its read with a reply to something else. */
  lemma NeverExposed(s0: State, steps: seq<Step>, at: u64)
    requires Initial(s0) && CanRun(s0, steps)
    requires Run(s0, steps).phase.Ready? && Run(s0, steps).doorbell > 0
    ensures D.NothingOwed(Run(s0, steps).ch) && D.AlwaysOwn(Run(s0, steps).ch, at, Zeros(DESC_BYTES))
  {
    StartsRight(s0);
    RunKeeps(s0, steps);
    CleanIsNotExposed(Run(s0, steps).ch);
    D.PairingExact(Run(s0, steps).ch, at, Zeros(DESC_BYTES));
  }

  /** What the process takes for the descriptor is the one in guest memory when QEMU served the read. */
  lemma DescriptorIsOwn(s0: State, steps: seq<Step>)
    requires Initial(s0) && CanRun(s0, steps) && Enabled(Run(s0, steps), DescArrives)
    ensures var t := Run(s0, steps);
            t.ch.served.Some?
            && Arrived(D.Do(t.ch, D.Return)) == SlotRead(Port(t.ch.served.value, []), Ring(t.phase.at, 1, 0))
  {
    StartsRight(s0);
    RunKeeps(s0, steps);
    ReturnedIsClean(Run(s0, steps).ch);
  }

  /** And what it transmits is what was in the descriptor's buffer when QEMU served that read. */
  lemma FrameIsOwn(s0: State, steps: seq<Step>)
    requires Initial(s0) && CanRun(s0, steps) && Enabled(Run(s0, steps), DataArrives)
    ensures var t := Run(s0, steps);
            t.ch.served.Some?
            && Do(t, DataArrives).wire == t.wire + [FrameRead(Port(t.ch.served.value, []), t.phase.desc)]
  {
    StartsRight(s0);
    RunKeeps(s0, steps);
    ReturnedIsClean(Run(s0, steps).ch);
  }

  /** Whenever the driver is free to post, the last write-back is in guest memory. */
  lemma WrittenBackBeforePost(s0: State, steps: seq<Step>)
    requires Initial(s0) && CanRun(s0, steps) && Enabled(Run(s0, steps), Post)
    ensures D.Requests(Run(s0, steps).ch.toQemu) == [] && Run(s0, steps).phase.Asleep?
  {
    StartsRight(s0);
    RunKeeps(s0, steps);
  }
}
