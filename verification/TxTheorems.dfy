/** What the transmit protocol guarantees over whole runs. */
module TxTheorems {
  import opened Bits
  import opened GuestMemory
  import opened Protocol
  import opened DmaPath
  import opened Rings
  import opened RingMemory
  import opened TxProtocol
  import opened TxProtocolProof

  function FailedWriteBacks(steps: seq<Step>): nat {
    if |steps| == 0 then 0 else (if steps[0] == WriteBack(false) then 1 else 0) + FailedWriteBacks(steps[1..])
  }

  lemma {:induction false} RetriesCounted(s: State, steps: seq<Step>)
    requires CanRun(s, steps)
    ensures Run(s, steps).retries == s.retries + FailedWriteBacks(steps)
    decreases |steps|
  {
    if |steps| > 0 { RetriesCounted(Do(s, steps[0]), steps[1..]); }
  }

  /** The slots handed over are exactly the circular interval from the oldest unfinished frame to the newest. */
  ghost predicate OwnIsInterval(s: State) {
    && s.done <= |s.posted| <= s.done + s.x.ring.size
    && forall i :: 0 <= i < s.x.ring.size ==>
         (Own(SlotsIn(s)[i]) <==> exists n :: s.done <= n < |s.posted| && i == SlotOf(n, s.x.ring.size))
  }

  lemma IntervalHolds(s: State)
    requires Conserved(s)
    ensures OwnIsInterval(s)
  {
    forall i, n | 0 <= i < s.x.ring.size && s.done <= n < |s.posted| && i == SlotOf(n, s.x.ring.size)
      ensures Own(SlotsIn(s)[i])
    {
      assert InRing(s, n);
    }
  }

  /** FIFO and exactly once: in every interleaving in which no descriptor write-back fails, the
      frames on the wire are the posted frames, in order and without repetition; at most the one
      being written back is ahead of the ring. Failed reads may delay but not disturb this. */
  lemma FifoExactlyOnce(s0: State, steps: seq<Step>)
    requires Initial(s0) && CanRun(s0, steps) && FailedWriteBacks(steps) == 0
    ensures var s := Run(s0, steps);
            && s.done <= |s.x.wire| <= s.done + 1 && |s.x.wire| <= |s.posted|
            && (forall j :: 0 <= j < |s.x.wire| ==> s.x.wire[j] == s.posted[j].frame)
            && OwnIsInterval(s)
  {
    StartsRight(s0);
    RunKeeps(s0, steps);
    RetriesCounted(s0, steps);
    var s := Run(s0, steps);
    IntervalHolds(s);
    if |s.log| > 0 { assert s.log[|s.log| - 1] < |s.posted|; }
  }

  /** With failing accesses: what is on the wire is still the posted sequence, never skipping, with
      only the frame at the tail repeated, and exactly one repetition for each failed write-back. */
  lemma StutterOnly(s0: State, steps: seq<Step>)
    requires Initial(s0) && CanRun(s0, steps)
    ensures var s := Run(s0, steps);
            && |s.x.wire| == |s.log| == s.done + FailedWriteBacks(steps) + (if s.device.Transmitted? then 1 else 0)
            && (forall j :: 0 <= j < |s.log| ==>
                  s.log[j] < |s.posted| && s.x.wire[j] == s.posted[s.log[j]].frame && Follows(s.log, j))
            && (|s.log| > 0 ==> s.done - 1 <= s.log[|s.log| - 1] <= s.done)
            && OwnIsInterval(s)
  {
    StartsRight(s0);
    RunKeeps(s0, steps);
    RetriesCounted(s0, steps);
    IntervalHolds(Run(s0, steps));
  }

  /** In every reachable state, a descriptor read that sees OWN sees a completely filled descriptor:
      the oldest frame not handed back, with its bytes still in place. */
  lemma NeverHalfFilled(s0: State, steps: seq<Step>)
    requires Initial(s0) && CanRun(s0, steps)
    requires var s := Run(s0, steps); s.device.Between? && Own(SlotRead(s.x.port, s.x.ring))
    ensures var s := Run(s0, steps);
            && s.done < |s.posted| && SlotRead(s.x.port, s.x.ring) == Handed(s.posted[s.done])
            && FrameRead(s.x.port, SlotRead(s.x.port, s.x.ring)) == s.posted[s.done].frame
  {
    StartsRight(s0);
    RunKeeps(s0, steps);
    var s := Run(s0, steps);
    FetchedIsOldest(s);
    assert InRing(s, s.done);
    ReadIsExact(s.posted[s.done].addr, s.posted[s.done].length);
  }

  // ---- Failures inside one region ----

  /** One pass moves tail, doorbell and ring memory together or not at all. */
  lemma PassAllOrNothing(x: Tx)
    ensures var x' := Pass(x);
            if Advances(x) then
              && x'.ring.tail == NextTail(x.ring) && x'.doorbell == x.doorbell - 1
              && x'.port.mem == Stored(x.port.mem, SlotAddr(x.ring), EncodeDesc(Completed(SlotRead(x.port, x.ring))))
            else
              x'.ring == x.ring && x'.doorbell == x.doorbell && x'.port.mem == x.port.mem
  {
  }

  /** The device's steps of one region from a descriptor with OWN on. */
  function AfterDesc(s: State, ok2: bool, ok3: bool): State
    requires s.device.HasDesc? && s.x.ring.size > 0 && s.x.doorbell > 0
  {
    var s2 := Do(s, FetchData(ok2));
    if s2.device.Between? then s2 else
    var s4 := Do(Do(s2, Transmit), WriteBack(ok3));
    if s4.device.Between? then s4 else Do(s4, Advance)
  }

  /** The device's steps of one region, taken in a row. */
  function Turn(s: State, ok1: bool, ok2: bool, ok3: bool): State
    requires s.device.Between? && s.awake
  {
    var s1 := Do(s, FetchDesc(ok1));
    if s1.device.Between? then s1 else AfterDesc(s1, ok2, ok3)
  }

  /** The region's accesses with the given outcomes, as the one-pass function sees them. */
  function WithFaults(s: State, ok1: bool, ok2: bool, ok3: bool): Tx {
    s.x.(port := Port(Mem(s), [!ok1, !ok2, !ok3]))
  }

  /** The device is between passes with what x describes, the access outcomes used up; whether the loop
      goes round is whether it is still awake. */
  predicate Matches(s: State, x: Tx, again: bool) {
    s.device == Between && s.awake == again && s.x == x.(port := Port(x.port.mem, []))
  }

  lemma FailedFetchMakesSend(s: State, d: Desc, ok3: bool)
    requires s.device == HasDesc(d) && s.x.port.faults == [] && s.x.ring.size > 0 && s.x.doorbell > 0
    ensures Matches(Do(s, FetchData(false)), Send(s.x.(port := Port(Mem(s), [true, !ok3])), d), false)
  {
  }

  lemma FailedWriteBackMakesSend(s: State, d: Desc)
    requires s.device == HasDesc(d) && s.x.port.faults == [] && s.x.ring.size > 0 && s.x.doorbell > 0
    ensures Matches(Do(Do(Do(s, FetchData(true)), Transmit), WriteBack(false)),
                    Send(s.x.(port := Port(Mem(s), [false, true])), d), false)
  {
    assert Tick(Port(Mem(s), [false, true])) == Port(Mem(s), [true]);
  }

  lemma AdvancedMakesSend(s: State, d: Desc)
    requires s.device == HasDesc(d) && s.x.port.faults == [] && s.x.ring.size > 0 && s.x.doorbell > 0
    ensures Matches(Do(Do(Do(Do(s, FetchData(true)), Transmit), WriteBack(true)), Advance),
                    Send(s.x.(port := Port(Mem(s), [false, false])), d), s.awake)
  {
    assert Tick(Port(Mem(s), [false, false])) == Port(Mem(s), [false]);
  }

  lemma SendingTurn(s: State, d: Desc, ok2: bool, ok3: bool)
    requires s.device == HasDesc(d) && s.awake && s.x.port.faults == [] && s.x.ring.size > 0 && s.x.doorbell > 0
    ensures Matches(AfterDesc(s, ok2, ok3), Send(s.x.(port := Port(Mem(s), [!ok2, !ok3])), d), ok2 && ok3)
  {
    if !ok2 {
      FailedFetchMakesSend(s, d, ok3);
    } else if ok3 {
      AdvancedMakesSend(s, d);
    } else {
      FailedWriteBackMakesSend(s, d);
    }
  }

  /** The pass from a descriptor with OWN on is Send. */
  lemma OwnedPassIs(x: Tx)
    requires x.pending && Configured(x) && !Fails(x.port) && Own(SlotRead(x.port, x.ring))
    ensures Pass(x) == Send(x.(port := Tick(x.port)), SlotRead(x.port, x.ring))
    ensures Advances(x) <==> !Fails(Tick(x.port)) && !Fails(Tick(Tick(x.port)))
  {
  }

  lemma ShortTurn(s: State, ok1: bool, ok2: bool, ok3: bool)
    requires s.device.Between? && s.awake && s.x.port.faults == []
    requires !(s.x.pending && Configured(s.x) && ok1 && Own(SlotRead(s.x.port, s.x.ring)))
    ensures var x := WithFaults(s, ok1, ok2, ok3);
            Matches(Do(s, FetchDesc(ok1)), Pass(x), false) && !Advances(x)
  {
    if ok1 { assert SlotRead(WithFaults(s, ok1, ok2, ok3).port, s.x.ring) == SlotRead(s.x.port, s.x.ring); }
  }

  /** Together they are one pass of process_tx, whichever accesses fail, and the process stays awake just
      when the loop goes round again. */
  lemma FineStepsMakePass(s: State, ok1: bool, ok2: bool, ok3: bool)
    requires s.device.Between? && s.awake && s.x.port.faults == []
    ensures var x := WithFaults(s, ok1, ok2, ok3);
            Matches(Turn(s, ok1, ok2, ok3), Pass(x), Advances(x))
  {
    var d := SlotRead(s.x.port, s.x.ring);
    if s.x.pending && Configured(s.x) && ok1 && Own(d) {
      var x := WithFaults(s, ok1, ok2, ok3);
      assert SlotRead(x.port, x.ring) == d && Tick(x.port) == Port(Mem(s), [!ok2, !ok3]);
      assert Tick(Tick(x.port)) == Port(Mem(s), [!ok3]);
      OwnedPassIs(x);
      SendingTurn(s.(device := HasDesc(d)), d, ok2, ok3);
    } else {
      ShortTurn(s, ok1, ok2, ok3);
    }
  }

  // ---- The guard the driver leaves out ----

  /** The driver's three descriptor stores for a packet at addr, without looking at the slot first. */
  function PostUnchecked(s: State, addr: u64, length: u32): State {
    var m1 := Store(Mem(s), HeadAddr(s), Le(addr, 8));
    var m2 := Store(m1, HeadAddr(s) + 8, Le(length, 4));
    WithMem(s, Store(m2, HeadAddr(s) + 12, Le(DESC_OWN, 4)))
  }

  lemma FirstTwoStores(m: Memory, base: nat, size: nat, i: nat, addr: u64, length: u32)
    requires i < size
    ensures var s := Slots(m, base, size);
            var m1 := Store(m, base + i * DESC_BYTES, Le(addr, 8));
            Slots(Store(m1, base + i * DESC_BYTES + 8, Le(length, 4)), base, size)
            == s[i := Desc(addr, length, s[i].flags)]
  {
    var m1 := Store(m, base + i * DESC_BYTES, Le(addr, 8));
    StoredAddr(m, base, size, i, addr);
    StoredLength(m1, base, size, i, length);
  }

  lemma PostUncheckedSlots(s: State, addr: u64, length: u32)
    requires s.head < s.x.ring.size
    ensures SlotsIn(PostUnchecked(s, addr, length)) == SlotsIn(s)[s.head := Desc(addr, length, DESC_OWN)]
  {
    var base, size := s.x.ring.base, s.x.ring.size;
    var m1 := Store(Mem(s), HeadAddr(s), Le(addr, 8));
    var m2 := Store(m1, HeadAddr(s) + 8, Le(length, 4));
    FirstTwoStores(Mem(s), base, size, s.head, addr, length);
    StoredFlags(m2, base, size, s.head, DESC_OWN);
  }

  /** With unfinished frames in the ring, the head slot still has OWN just when the head has caught
      up with the tail. */
  lemma HeadMeetsTail(s: State)
    requires Inv(s) && s.driver.Idle? && s.device.Between? && s.done < |s.posted|
    ensures Own(SlotsIn(s)[s.head]) <==> s.head == s.x.ring.tail
    ensures Own(SlotsIn(s)[s.x.ring.tail]) && SlotsIn(s)[s.x.ring.tail] == Handed(s.posted[s.done])
  {
    assert InRing(s, s.done);
    if Own(SlotsIn(s)[s.head]) {
      if |s.posted| < s.done + s.x.ring.size { NextSlotFree(s); }
      NextSlot(s.done, s.x.ring.size);
    }
  }

  /** smarteth_test_tx never checks the slot it fills. Posting without the check leaves the oldest
      unfinished frame next in line exactly when the slot had been handed back; if it still had
      OWN, the new descriptor has replaced that frame's. */
  lemma UncheckedPostExact(s: State, addr: u64, length: u32)
    requires Inv(s) && s.driver.Idle? && s.device.Between? && s.done < |s.posted|
    requires Desc(addr, length, DESC_OWN) != Handed(s.posted[s.done])
    ensures var s' := PostUnchecked(s, addr, length);
            SlotsIn(s')[s.x.ring.tail] == Handed(s.posted[s.done]) <==> !Own(SlotsIn(s)[s.head])
  {
    PostUncheckedSlots(s, addr, length);
    HeadMeetsTail(s);
  }
}
