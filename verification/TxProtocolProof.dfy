/** Every step of the transmit protocol keeps its invariant. */
module TxProtocolProof {
  import opened Bits
  import opened GuestMemory
  import opened Protocol
  import opened DmaPath
  import opened Rings
  import opened RingMemory
  import opened TxDrainSpec
  import opened TxProtocol

  predicate SameHistory(s: State, s': State) {
    && s'.x.ring.base == s.x.ring.base && s'.x.ring.size == s.x.ring.size && WellFormed(s'.x.ring)
    && s'.posted == s.posted && s'.done == s.done
  }

  // ---- Conservation ----

  /** A frame in the ring survives any change that spares its slot and its buffer. */
  lemma StaysInRing(s: State, s': State, n: nat)
    requires n < |s.posted| <= |s'.posted| && s'.posted[n] == s.posted[n]
    requires s.x.ring.size > 0 && s'.x.ring.base == s.x.ring.base && s'.x.ring.size == s.x.ring.size
    requires InRing(s, n)
    requires SlotsIn(s')[SlotOf(n, s.x.ring.size)] == SlotsIn(s)[SlotOf(n, s.x.ring.size)]
    requires SameOn(Mem(s), Mem(s'), s.posted[n].addr, s.posted[n].length)
    ensures InRing(s', n)
  {
    FetchSame(Mem(s), Mem(s'), s.posted[n].addr, s.posted[n].length);
  }

  lemma OutsideIsSame(s: State, s': State, n: nat)
    requires n < |s.posted| && s.x.ring.size > 0 && InRing(s, n)
    requires SameOutside(Mem(s), Mem(s'), s.x.ring.base, s.x.ring.size)
    ensures SameOn(Mem(s), Mem(s'), s.posted[n].addr, s.posted[n].length)
  {
  }

  /** Half-filling a free slot. */
  lemma ConservedPatch(s: State, s': State, i: nat, d: Desc)
    requires Conserved(s) && SameHistory(s, s') && i < s.x.ring.size
    requires SlotsIn(s') == SlotsIn(s)[i := d] && !Own(SlotsIn(s)[i]) && !Own(d)
    requires SameOutside(Mem(s), Mem(s'), s.x.ring.base, s.x.ring.size)
    ensures Conserved(s')
  {
    forall n | s.done <= n < |s.posted| ensures InRing(s', n) {
      OutsideIsSame(s, s', n);
      StaysInRing(s, s', n);
    }
  }

  /** Stores that touch neither the ring nor a posted buffer. */
  lemma ConservedElsewhere(s: State, s': State)
    requires Conserved(s) && SameHistory(s, s') && SlotsIn(s') == SlotsIn(s)
    requires forall n :: s.done <= n < |s.posted| ==> SameOn(Mem(s), Mem(s'), s.posted[n].addr, s.posted[n].length)
    ensures Conserved(s')
  {
    forall n | s.done <= n < |s.posted| ensures InRing(s', n) {
      StaysInRing(s, s', n);
    }
  }

  /** With fewer than size frames in flight, the next slot is free. */
  lemma NextSlotFree(s: State)
    requires Conserved(s) && |s.posted| < s.done + s.x.ring.size
    ensures !Own(SlotsIn(s)[SlotOf(|s.posted|, s.x.ring.size)])
  {
    var i := SlotOf(|s.posted|, s.x.ring.size);
    if Own(SlotsIn(s)[i]) {
      var n :| s.done <= n < |s.posted| && i == SlotOf(n, s.x.ring.size);
      SlotsDiffer(n, |s.posted|, s.x.ring.size);
      assert false;
    }
  }

  /** And the other way round: a free next slot means the ring is not full. */
  lemma FreeMeansRoom(s: State)
    requires Conserved(s) && !Own(SlotsIn(s)[SlotOf(|s.posted|, s.x.ring.size)])
    ensures |s.posted| < s.done + s.x.ring.size
  {
    if s.done < |s.posted| {
      assert InRing(s, s.done);
      NextSlot(s.done, s.x.ring.size);
    }
  }

  /** Handing a frame over. */
  lemma ConservedPost(s: State, s': State, p: Post)
    requires Conserved(s) && |s.posted| < s.done + s.x.ring.size
    requires s'.x.ring == s.x.ring && s'.posted == s.posted + [p] && s'.done == s.done
    requires SlotsIn(s') == SlotsIn(s)[SlotOf(|s.posted|, s.x.ring.size) := Handed(p)]
    requires SameOutside(Mem(s), Mem(s'), s.x.ring.base, s.x.ring.size)
    requires p.length <= DMA_MAX_BUF && p.frame == Fetch(Mem(s), p.addr, p.length)
    requires Disjoint(p.addr, p.length, s.x.ring.base, s.x.ring.size * DESC_BYTES)
    ensures Conserved(s')
  {
    var size, last := s.x.ring.size, |s.posted|;
    NextSlotFree(s);
    forall n | s'.done <= n < |s'.posted| ensures InRing(s', n) {
      if n < last {
        SlotsDiffer(n, last, size);
        OutsideIsSame(s, s', n);
        StaysInRing(s, s', n);
      } else {
        FetchSame(Mem(s), Mem(s'), p.addr, p.length);
      }
    }
    forall i | 0 <= i < size && Own(SlotsIn(s')[i])
      ensures exists n :: s'.done <= n < |s'.posted| && i == SlotOf(n, size)
    {
      if i == SlotOf(last, size) {
        assert s'.done <= last < |s'.posted|;
      } else {
        var n :| s.done <= n < |s.posted| && i == SlotOf(n, size);
        assert s'.done <= n < |s'.posted|;
      }
    }
  }

  /** Handing the oldest frame back. */
  lemma ConservedDone(s: State, s': State)
    requires Conserved(s) && s.done < |s.posted|
    requires s'.x.ring == s.x.ring && s'.posted == s.posted && s'.done == s.done + 1
    requires SlotsIn(s') == SlotsIn(s)[SlotOf(s.done, s.x.ring.size) := Completed(Handed(s.posted[s.done]))]
    requires SameOutside(Mem(s), Mem(s'), s.x.ring.base, s.x.ring.size)
    ensures Conserved(s')
  {
    var size := s.x.ring.size;
    forall n | s'.done <= n < |s'.posted| ensures InRing(s', n) {
      SlotsDiffer(s.done, n, size);
      OutsideIsSame(s, s', n);
      StaysInRing(s, s', n);
    }
    forall i | 0 <= i < size && Own(SlotsIn(s')[i])
      ensures exists n :: s'.done <= n < |s'.posted| && i == SlotOf(n, size)
    {
      var n :| s.done <= n < |s.posted| && i == SlotOf(n, size);
      assert n != s.done;
      assert s'.done <= n < |s'.posted|;
    }
  }

  // ---- The transmission log ----

  /** Steps that neither transmit nor write back. */
  lemma LogSame(s: State, s': State)
    requires LogOk(s)
    requires s'.log == s.log && s'.x.wire == s.x.wire && s'.retries == s.retries && s'.done == s.done
    requires s'.device.Transmitted? == s.device.Transmitted?
    requires s.posted <= s'.posted
    ensures LogOk(s')
  {
    forall j | 0 <= j < |s'.log|
      ensures s'.log[j] < |s'.posted| && s'.x.wire[j] == s'.posted[s'.log[j]].frame
    {
      assert s.posted[s.log[j]] == s'.posted[s.log[j]];
    }
  }

  lemma LogTransmit(s: State, s': State)
    requires LogOk(s) && !s.device.Transmitted? && s'.device.Transmitted? && s.done < |s.posted|
    requires s'.log == s.log + [s.done] && s'.x.wire == s.x.wire + [s.posted[s.done].frame]
    requires s'.retries == s.retries && s'.done == s.done && s'.posted == s.posted
    ensures LogOk(s')
  {
    forall j | 0 <= j < |s'.log| ensures Follows(s'.log, j) {
      if j < |s.log| { assert Follows(s.log, j); }
    }
    if s.retries == 0 && |s.log| > 0 { assert s.log[|s.log| - 1] == |s.log| - 1; }
  }

  // ---- One lemma per step ----

  lemma StoreAddrEffect(s: State, step: Step)
    requires Inv(s) && step.StoreAddr? && Enabled(s, step)
    ensures Conserved(Do(s, step))
    ensures SlotsIn(Do(s, step)) == SlotsIn(s)[s.head := SlotsIn(s)[s.head].(addr := step.addr)]
  {
    StoredAddr(Mem(s), s.x.ring.base, s.x.ring.size, s.head, step.addr);
    ConservedPatch(s, Do(s, step), s.head, SlotsIn(s)[s.head].(addr := step.addr));
  }

  lemma StoreAddrKeeps(s: State, step: Step)
    requires Inv(s) && step.StoreAddr? && Enabled(s, step)
    ensures Inv(Do(s, step))
  {
    StoreAddrEffect(s, step);
    LogSame(s, Do(s, step));
    FreeMeansRoom(s);
  }

  lemma StoreLengthEffect(s: State)
    requires Inv(s) && Enabled(s, StoreLength)
    ensures Conserved(Do(s, StoreLength))
    ensures SlotsIn(Do(s, StoreLength)) == SlotsIn(s)[s.head := SlotsIn(s)[s.head].(length := s.driver.length)]
  {
    StoredLength(Mem(s), s.x.ring.base, s.x.ring.size, s.head, s.driver.length);
    NextSlotFree(s);
    ConservedPatch(s, Do(s, StoreLength), s.head, SlotsIn(s)[s.head].(length := s.driver.length));
  }

  lemma StoreLengthKeeps(s: State)
    requires Inv(s) && Enabled(s, StoreLength)
    ensures Inv(Do(s, StoreLength))
  {
    StoreLengthEffect(s);
    LogSame(s, Do(s, StoreLength));
  }

  lemma StoreOwnEffect(s: State)
    requires Inv(s) && Enabled(s, StoreOwn)
    ensures Conserved(Do(s, StoreOwn))
  {
    var s' := Do(s, StoreOwn);
    StoredFlags(Mem(s), s.x.ring.base, s.x.ring.size, s.head, DESC_OWN);
    ConservedPost(s, s', s'.posted[|s.posted|]);
  }

  lemma OwnPosted(s: State, t: State, p: Post)
    requires Inv(s) && s.driver.LengthStored? && Conserved(t)
    requires t == s.(x := s.x.(port := Port(t.x.port.mem, [])), driver := OwnStored, posted := s.posted + [p])
    ensures Inv(t)
  {
    LogSame(s, t);
  }

  lemma StoreOwnKeeps(s: State)
    requires Inv(s) && Enabled(s, StoreOwn)
    ensures Inv(Do(s, StoreOwn))
  {
    StoreOwnEffect(s);
    OwnPosted(s, Do(s, StoreOwn), Do(s, StoreOwn).posted[|s.posted|]);
  }

  lemma HeadHasMoved(s: State, t: State)
    requires Inv(s) && s.driver.OwnStored?
    requires t == s.(head := SlotOf(|s.posted|, s.x.ring.size), driver := HeadMoved)
    ensures Inv(t)
  {
    ConservedElsewhere(s, t);
    LogSame(s, t);
  }

  lemma MoveHeadKeeps(s: State)
    requires Inv(s) && Enabled(s, MoveHead)
    ensures Inv(Do(s, MoveHead))
  {
    NextSlot(|s.posted| - 1, s.x.ring.size);
    WrapMod(s.head + 1, s.x.ring.size);
    HeadHasMoved(s, Do(s, MoveHead));
  }

  lemma RingBellKeeps(s: State)
    requires Inv(s) && Enabled(s, RingBell)
    ensures Inv(Do(s, RingBell))
  {
    ConservedElsewhere(s, Do(s, RingBell));
    LogSame(s, Do(s, RingBell));
  }

  lemma DeliverBellKeeps(s: State)
    requires Inv(s) && Enabled(s, DeliverBell)
    ensures Inv(Do(s, DeliverBell))
  {
    ConservedElsewhere(s, Do(s, DeliverBell));
    LogSame(s, Do(s, DeliverBell));
  }

  lemma GuestStoreKeeps(s: State, step: Step)
    requires Inv(s) && step.GuestStore? && Enabled(s, step)
    ensures Inv(Do(s, step))
  {
    var s' := Do(s, step);
    SlotsUntouched(Mem(s), s.x.ring.base, s.x.ring.size, step.at, step.data);
    forall n | s.done <= n < |s.posted|
      ensures SameOn(Mem(s), Mem(s'), s.posted[n].addr, s.posted[n].length)
    {
    }
    LogSame(s, s');
    ConservedElsewhere(s, s');
  }

  /** A descriptor read finds either a slot without OWN or the oldest posted frame, never a
      half-filled descriptor. */
  lemma FetchedIsOldest(s: State)
    requires Inv(s) && s.device.Between? && Own(SlotRead(s.x.port, s.x.ring))
    ensures s.done < |s.posted| && SlotRead(s.x.port, s.x.ring) == Handed(s.posted[s.done])
  {
    TailSlot(s.x.port, s.x.ring);
    var size := s.x.ring.size;
    assert SlotRead(s.x.port, s.x.ring) == SlotsIn(s)[SlotOf(s.done, size)];
    var n :| s.done <= n < |s.posted| && SlotOf(s.done, size) == SlotOf(n, size);
    if n != s.done {
      SlotsDiffer(s.done, n, size);
      assert false;
    }
    assert InRing(s, s.done);
  }

  lemma FetchedKeeps(s: State)
    requires Inv(s) && Enabled(s, FetchDesc(true)) && s.x.pending && Configured(s.x)
    requires Own(SlotRead(s.x.port, s.x.ring))
    ensures Inv(s.(device := HasDesc(SlotRead(s.x.port, s.x.ring))))
  {
    var t := s.(device := HasDesc(SlotRead(s.x.port, s.x.ring)));
    FetchedIsOldest(s);
    ConservedElsewhere(s, t);
    LogSame(s, t);
  }

  lemma SleepingKeeps(s: State, pending: bool)
    requires Inv(s) && s.device.Between?
    ensures Inv(Sleeping(s.(x := s.x.(pending := pending))))
  {
    var t := Sleeping(s.(x := s.x.(pending := pending)));
    ConservedElsewhere(s, t);
    LogSame(s, t);
  }

  lemma FetchDescKeeps(s: State, ok: bool)
    requires Inv(s) && Enabled(s, FetchDesc(ok))
    ensures Inv(Do(s, FetchDesc(ok)))
  {
    SleepingKeeps(s, false);
    SleepingKeeps(s, s.x.pending);
    assert s.(x := s.x.(pending := s.x.pending)) == s;
    if s.x.pending && Configured(s.x) && ok && Own(SlotRead(s.x.port, s.x.ring)) { FetchedKeeps(s); }
  }

  /** What is read for the descriptor held is the frame as it was posted. */
  lemma DataIsFrame(s: State)
    requires Conserved(s) && DeviceOk(s) && s.device.HasDesc?
    ensures FrameRead(s.x.port, s.device.desc) == s.posted[s.done].frame
  {
    assert InRing(s, s.done);
    ReadIsExact(s.posted[s.done].addr, s.posted[s.done].length);
  }

  lemma DataFetched(s: State, t: State)
    requires Inv(s) && s.device.HasDesc?
    requires t == s.(device := HasData(s.device.desc, s.posted[s.done].frame))
             || t == s.(device := Between, awake := false, irqs := s.irqs + 1)
    ensures Inv(t)
  {
    ConservedElsewhere(s, t);
    LogSame(s, t);
  }

  lemma FetchDataKeeps(s: State, ok: bool)
    requires Inv(s) && Enabled(s, FetchData(ok))
    ensures Inv(Do(s, FetchData(ok)))
  {
    DataIsFrame(s);
    DataFetched(s, Do(s, FetchData(ok)));
  }

  lemma TransmitKeeps(s: State)
    requires Inv(s) && Enabled(s, Transmit)
    ensures Inv(Do(s, Transmit))
  {
    ConservedElsewhere(s, Do(s, Transmit));
    LogTransmit(s, Do(s, Transmit));
  }

  /** A successful write-back completes the oldest frame's descriptor and nothing else. */
  lemma WriteBackEffect(s: State)
    requires Conserved(s) && DeviceOk(s) && s.device.Transmitted?
    ensures var s' := Do(s, WriteBack(true));
            && SlotsIn(s') == SlotsIn(s)[SlotOf(s.done, s.x.ring.size) := Completed(Handed(s.posted[s.done]))]
            && SameOutside(Mem(s), Mem(s'), s.x.ring.base, s.x.ring.size)
            && s' == s.(x := s.x.(port := Port(Mem(s'), [])), device := WroteBack, done := s.done + 1)
  {
    TailWritten(s.x.port, s.x.ring, Completed(s.device.desc));
  }

  /** The driver never works on the slot being written back. */
  lemma HeadIsElsewhere(s: State)
    requires Conserved(s) && DriverOk(s) && s.done < |s.posted|
    requires s.driver.AddrStored? || s.driver.LengthStored?
    ensures s.head != SlotOf(s.done, s.x.ring.size)
  {
    SlotsDiffer(s.done, |s.posted|, s.x.ring.size);
  }

  lemma WriteBackDriver(s: State, s': State)
    requires Conserved(s) && DriverOk(s) && s.done < |s.posted|
    requires s'.x.ring == s.x.ring && s'.driver == s.driver && s'.head == s.head
    requires s'.posted == s.posted && s'.done == s.done + 1
    requires |SlotsIn(s')| == |SlotsIn(s)|
    requires forall i :: 0 <= i < s.x.ring.size && i != SlotOf(s.done, s.x.ring.size) ==>
               SlotsIn(s')[i] == SlotsIn(s)[i]
    ensures DriverOk(s')
  {
    if s.driver.AddrStored? || s.driver.LengthStored? { HeadIsElsewhere(s); }
  }

  lemma LogWrittenBack(s: State, s': State)
    requires LogOk(s) && s.device.Transmitted? && !s'.device.Transmitted?
    requires s'.log == s.log && s'.x.wire == s.x.wire && s'.posted == s.posted
    requires s'.done + s'.retries == s.done + s.retries + 1 && s.done <= s'.done && s.retries <= s'.retries
    ensures LogOk(s')
  {
  }

  lemma WriteBackDoneKeeps(s: State)
    requires Inv(s) && s.device.Transmitted?
    ensures Inv(Do(s, WriteBack(true)))
  {
    var s' := Do(s, WriteBack(true));
    WriteBackEffect(s);
    ConservedDone(s, s');
    WriteBackDriver(s, s');
    LogWrittenBack(s, s');
  }

  lemma WriteBackFailedKeeps(s: State)
    requires Inv(s) && s.device.Transmitted?
    ensures Inv(Do(s, WriteBack(false)))
  {
    ConservedElsewhere(s, Do(s, WriteBack(false)));
    LogWrittenBack(s, Do(s, WriteBack(false)));
  }

  lemma WriteBackKeeps(s: State, ok: bool)
    requires Inv(s) && Enabled(s, WriteBack(ok))
    ensures Inv(Do(s, WriteBack(ok)))
  {
    if ok { WriteBackDoneKeeps(s); } else { WriteBackFailedKeeps(s); }
  }

  /** From one slot to the next. */
  lemma TailAdvances(r: Ring, n: nat)
    requires WellFormed(r) && n > 0 && r.tail == SlotOf(n - 1, r.size)
    ensures NextTail(r) == SlotOf(n, r.size)
  {
    NextTailIs(r);
    NextSlot(n - 1, r.size);
    WrapMod(r.tail + 1, r.size);
  }

  lemma Advanced(s: State, t: State)
    requires Inv(s) && s.device.WroteBack? && s.x.doorbell > 0
    requires t == s.(x := s.x.(ring := s.x.ring.(tail := NextTail(s.x.ring)), doorbell := s.x.doorbell - 1),
                     device := Between)
    ensures Inv(t)
  {
    TailAdvances(s.x.ring, s.done);
    assert SlotsIn(t) == SlotsIn(s);
    ConservedElsewhere(s, t);
    LogSame(s, t);
  }

  lemma AdvanceKeeps(s: State)
    requires Inv(s) && Enabled(s, Advance)
    ensures Inv(Do(s, Advance))
  {
    Advanced(s, Do(s, Advance));
  }

  lemma StepKeeps(s: State, step: Step)
    requires Inv(s) && Enabled(s, step)
    ensures Inv(Do(s, step))
  {
    match step
    case StoreAddr(_, _) => StoreAddrKeeps(s, step);
    case StoreLength => StoreLengthKeeps(s);
    case StoreOwn => StoreOwnKeeps(s);
    case MoveHead => MoveHeadKeeps(s);
    case RingBell => RingBellKeeps(s);
    case DeliverBell => DeliverBellKeeps(s);
    case GuestStore(_, _) => GuestStoreKeeps(s, step);
    case FetchDesc(ok) => FetchDescKeeps(s, ok);
    case FetchData(ok) => FetchDataKeeps(s, ok);
    case Transmit => TransmitKeeps(s);
    case WriteBack(ok) => WriteBackKeeps(s, ok);
    case Advance => AdvanceKeeps(s);
  }

  lemma {:induction false} RunKeeps(s: State, steps: seq<Step>)
    requires Inv(s) && CanRun(s, steps)
    ensures Inv(Run(s, steps))
    decreases |steps|
  {
    if |steps| > 0 {
      StepKeeps(s, steps[0]);
      RunKeeps(Do(s, steps[0]), steps[1..]);
    }
  }

  lemma StartsRight(s: State)
    requires Initial(s)
    ensures Inv(s)
  {
  }
}
