/** The fine steps of the MMIO protocol, taken in a row with the locks free, are the handlers that
    ScBridge.ScBridgeState implements. */
module MmioHandlers {
  import opened Bits
  import opened GuestMemory
  import opened Protocol
  import opened DmaPath
  import opened RegisterBlock
  import opened SmartNic
  import opened ScBridge
  import opened MmioProtocol
  import opened MmioTheorems

  /** k steps of the I/O thread lead from s to t. */
  predicate IoReaches(s: State, t: State, k: nat)
    decreases k, s
  {
    if k == 0 then s == t else IoCan(s) && IoReaches(IoStep(s), t, k - 1)
  }

  /** k steps of the guest thread lead from s to t. */
  predicate GuestReaches(s: State, t: State, k: nat)
    decreases k, s
  {
    if k == 0 then s == t else GuestCan(s) && GuestReaches(GuestStep(s), t, k - 1)
  }

  /** What a handled message leaves, in the terms of ScBridgeState.HandleMessage. */
  predicate Handled(s: State, t: State, m: ToQemu) {
    && t.io.Receive? && |s.toQemu| > 0 && t.toQemu == s.toQemu[1..]
    && t.toSc == s.toSc + ReplyTo(s.mem, m) && t.mem == MemoryAfter(s.mem, m)
    && t.pending == (s.pending && !m.ReadResp?)
    && t.respData == (if m.ReadResp? then m.value else s.respData)
    && t.cache == s.cache && t.nic == s.nic && t.bql == s.bql && t.mmioMtx == s.mmioMtx && t.sockMtx == s.sockMtx
  }

  lemma DmaInOneGo(s: State) returns (t: State)
    requires s.bql == Free && s.sockMtx == Free && (s.io.DmaReadLock? || s.io.DmaWriteLock?)
    ensures IoReaches(s, t, 4) && t.io.Receive?
    ensures t == s.(io := Receive, toSc := t.toSc, mem := t.mem)
    ensures s.io.DmaReadLock? ==> t.mem == s.mem && t.toSc == s.toSc + [DmaData(ServeRead(s.mem, s.io.addr, s.io.len))]
    ensures s.io.DmaWriteLock? ==> t.mem == Stored(s.mem, s.io.addr, s.io.data) && t.toSc == s.toSc + [DmaAck]
  {
    var s1 := IoStep(s);
    var s2 := IoStep(s1);
    var s3 := IoStep(s2);
    t := IoStep(s3);
    assert IoReaches(t, t, 0);
    assert IoReaches(s3, t, 1);
    assert IoReaches(s2, t, 2);
    assert IoReaches(s1, t, 3);
  }

  /** With the locks free, the I/O thread handles a message as ScBridgeState.HandleMessage does. */
  lemma MessageInOneGo(s: State) returns (t: State)
    requires s.io.Receive? && |s.toQemu| > 0 && s.bql == Free && s.mmioMtx == Free && s.sockMtx == Free
    ensures IoReaches(s, t, 1 + IoLeft(Dispatch(s.toQemu[0]))) && Handled(s, t, s.toQemu[0])
  {
    var s1 := IoStep(s);
    match s.toQemu[0]
    case WriteAck => t := s1;
    case DmaRead(_, _) => t := DmaInOneGo(s1);
    case DmaWrite(_, _) => t := DmaInOneGo(s1);
    case _ =>
      var s2 := IoStep(s1);
      t := IoStep(s2);
      assert IoReaches(s2, t, 1);
      assert IoReaches(s1, t, 2);
  }

  /** With the locks free, the guest thread writes as ScBridgeState.MmioWrite does. */
  lemma WriteInOneGo(s: State, a: nat, w: u32) returns (t: State)
    requires Enabled(s, StartWrite(a, w)) && s.sockMtx == Free
    ensures GuestReaches(Do(s, StartWrite(a, w)), t, if Forwarded(a) then 4 else 2)
    ensures t.cache == CacheWrite(s.cache, a, w) && t.toSc == s.toSc + if Forwarded(a) then [WriteReq(a, w)] else []
    ensures t.guest.Running? && t.bql == Free && t.sockMtx == Free && t.pending == s.pending
  {
    var s1 := GuestStep(Do(s, StartWrite(a, w)));
    if Forwarded(a) {
      var s2 := GuestStep(s1);
      var s3 := GuestStep(s2);
      t := GuestStep(s3);
      assert GuestReaches(s3, t, 1);
      assert GuestReaches(s2, t, 2);
      assert GuestReaches(s1, t, 3);
    } else {
      t := GuestStep(s1);
      assert GuestReaches(s1, t, 1);
    }
  }

  /** With the locks free, the guest thread begins a read as ScBridgeState.BeginRead does. */
  lemma ReadBegunInOneGo(s: State, a: nat) returns (t: State)
    requires Enabled(s, StartRead(a)) && s.mmioMtx == Free && s.sockMtx == Free
    ensures GuestReaches(Do(s, StartRead(a)), t, 5)
    ensures t.pending && t.toSc == s.toSc + [ReadReq(a)] && t.cache == s.cache
    ensures t.guest == WaitLock(a) && t.bql == Free && t.mmioMtx == Free && t.sockMtx == Free
  {
    var s1 := GuestStep(Do(s, StartRead(a)));
    var s2 := GuestStep(s1);
    var s3 := GuestStep(s2);
    var s4 := GuestStep(s3);
    t := GuestStep(s4);
    assert GuestReaches(s4, t, 1);
    assert GuestReaches(s3, t, 2);
    assert GuestReaches(s2, t, 3);
    assert GuestReaches(s1, t, 4);
  }

  /** Once answered, it finishes as ScBridgeState.FinishRead does on a good status. */
  lemma ReadFinishedInOneGo(s: State) returns (t: State)
    requires s.guest.WaitLock? && !s.pending && s.mmioMtx == Free && s.bql == Free && s.guest.addr < SC_REG_COUNT
    ensures GuestReaches(s, t, 4)
    ensures t.returned == s.returned + [s.respData] && t.cache == Set(s.cache, s.guest.addr, s.respData)
    ensures t.guest.Running? && t.bql == Free && t.mmioMtx == Free && t.toSc == s.toSc
  {
    var s1 := GuestStep(s);
    var s2 := GuestStep(s1);
    var s3 := GuestStep(s2);
    t := GuestStep(s3);
    assert GuestReaches(s3, t, 1);
    assert GuestReaches(s2, t, 2);
    assert GuestReaches(s1, t, 3);
  }

  /** The MSI-X vectors among some messages. */
  function Vectors(q: seq<ToQemu>): seq<u32> {
    if |q| == 0 then [] else (if q[0].Msi? then [q[0].vector] else []) + Vectors(q[1..])
  }

  /** The socket thread tells the host of every interrupt that a register access raises, and of no other, and answers
      the access itself once: a read with its value, a write with an acknowledgement. */
  lemma PeerTells(s: State)
    requires |s.toSc| > 0
    ensures var t, m := PeerStep(s), s.toSc[0];
            && |t.toQemu| >= |s.toQemu| && t.toQemu[..|s.toQemu|] == s.toQemu && t.toSc == s.toSc[1..]
            && var sent := t.toQemu[|s.toQemu|..];
               && t.nic.irqs == s.nic.irqs + Vectors(sent)
               && (m.ReadReq? ==> t.nic == s.nic && sent == [ReadResp(MmioRead(s.nic, m.addr), 0)])
               && (m.WriteReq? ==> |sent| > 0 && sent[|sent| - 1] == WriteAck
                                   && forall i :: 0 <= i < |sent| - 1 ==> sent[i].Msi?)
               && (m.DmaData? || m.DmaAck? ==> t.nic == s.nic && sent == [])
  {
    var t := PeerStep(s);
    var sent := t.toQemu[|s.toQemu|..];
    assert s.nic.irqs + [] == s.nic.irqs;
    match s.toSc[0]
    case ReadReq(a) => assert sent == [ReadResp(MmioRead(s.nic, a), 0)] && sent[1..] == [];
    case WriteReq(a, w) =>
      if IrqChanged(a, w) {
        assert sent == [Msi(0), WriteAck] && sent[1..] == [WriteAck] && sent[1..][1..] == [];
        assert Vectors(sent[1..]) == [] && Vectors(sent) == [0];
      } else {
        assert sent == [WriteAck] && sent[1..] == [];
      }
    case _ => assert sent == [];
  }
}
