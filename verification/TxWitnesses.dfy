/** Runs of the transmit protocol on which the driver, which neither looks at its slot nor at the doorbell,
    gets less than it might expect: each failing case of the exact conditions is reachable. */
module TxWitnesses {
  import opened Bits
  import opened GuestMemory
  import opened Protocol
  import opened DmaPath
  import opened Rings
  import opened RingMemory
  import opened TxProtocol
  import opened TxProtocolProof
  import opened TxTheorems
  import opened TxCredits

  // ---- Posting one packet ----

  lemma {:induction false} RunThen(s: State, steps: seq<Step>, step: Step)
    requires CanRun(s, steps) && Enabled(Run(s, steps), step)
    ensures CanRun(s, steps + [step]) && Run(s, steps + [step]) == Do(Run(s, steps), step)
    ensures Lost(s, steps + [step]) == Lost(s, steps) + LostBy(Run(s, steps), step)
    decreases |steps|
  {
    if |steps| == 0 {
      assert (steps + [step])[1..] == [];
    } else {
      assert (steps + [step])[1..] == steps[1..] + [step];
      RunThen(Do(s, steps[0]), steps[1..], step);
    }
  }

  lemma RunTwo(s: State, steps: seq<Step>, a: Step, b: Step)
    requires CanRun(s, steps) && Enabled(Run(s, steps), a) && Enabled(Do(Run(s, steps), a), b)
    requires !a.DeliverBell? && !b.DeliverBell?
    ensures CanRun(s, steps + [a, b]) && Lost(s, steps + [a, b]) == Lost(s, steps)
    ensures Run(s, steps + [a, b]) == Do(Do(Run(s, steps), a), b)
  {
    RunThen(s, steps, a);
    RunThen(s, steps + [a], b);
    assert steps + [a] + [b] == steps + [a, b];
  }

  /** step leads from t to t'. */
  predicate Leads(t: State, step: Step, t': State) { !step.DeliverBell? && Enabled(t, step) && Do(t, step) == t' }

  lemma RunLeads(s: State, steps: seq<Step>, a: Step, t1: State, b: Step, t2: State)
    requires CanRun(s, steps) && Leads(Run(s, steps), a, t1) && Leads(t1, b, t2)
    ensures CanRun(s, steps + [a, b]) && Lost(s, steps + [a, b]) == Lost(s, steps) && Run(s, steps + [a, b]) == t2
  {
    RunTwo(s, steps, a, b);
  }

  lemma RunOn(s: State, steps: seq<Step>, more: seq<Step>, t: State, a: Step, t1: State, b: Step, t2: State)
    requires CanRun(s, steps + more) && Run(s, steps + more) == t && Leads(t, a, t1) && Leads(t1, b, t2)
    ensures CanRun(s, steps + (more + [a, b])) && Run(s, steps + (more + [a, b])) == t2
    ensures Lost(s, steps + (more + [a, b])) == Lost(s, steps + more)
  {
    RunLeads(s, steps + more, a, t1, b, t2);
    assert steps + more + [a, b] == steps + (more + [a, b]);
  }

  /** The driver's five steps for one packet. */
  function PostSteps(addr: u64, length: u32): seq<Step> {
    [StoreAddr(addr, length), StoreLength, StoreOwn, MoveHead, RingBell]
  }

  /** What they leave: one descriptor handed over, the head moved, one doorbell write on its way. */
  ghost predicate PostedOne(t: State, t': State, addr: u64, length: u32)
    requires t.head < t.x.ring.size
  {
    && SlotsIn(t') == SlotsIn(t)[t.head := Desc(addr, length, DESC_OWN)]
    && t'.head == (t.head + 1) % t.x.ring.size && t'.bells == t.bells + [1]
    && |t'.posted| == |t.posted| + 1 && t'.done == t.done && t'.driver.Idle?
    && t'.device == t.device && t'.awake == t.awake && t'.irqs == t.irqs
    && t'.x == t.x.(port := t'.x.port)
  }

  lemma StoresChain(t: State, addr: u64, length: u32) returns (t1: State, t2: State, t3: State)
    requires Enabled(t, StoreAddr(addr, length))
    ensures Leads(t, StoreAddr(addr, length), t1) && Leads(t1, StoreLength, t2) && Leads(t2, StoreOwn, t3)
    ensures t3.x == PostUnchecked(t, addr, length).x && t3.driver.OwnStored? && t3.head == t.head && t3.bells == t.bells
    ensures |t3.posted| == |t.posted| + 1 && t3.done == t.done
    ensures t3.device == t.device && t3.awake == t.awake && t3.irqs == t.irqs
  {
    t1 := Do(t, StoreAddr(addr, length));
    t2 := Do(t1, StoreLength);
    t3 := Do(t2, StoreOwn);
  }

  lemma PostChain(t: State, addr: u64, length: u32) returns (t1: State, t2: State, t3: State, t4: State, t5: State)
    requires Enabled(t, StoreAddr(addr, length))
    ensures Leads(t, StoreAddr(addr, length), t1) && Leads(t1, StoreLength, t2) && Leads(t2, StoreOwn, t3)
    ensures Leads(t3, MoveHead, t4) && Leads(t4, RingBell, t5) && PostedOne(t, t5, addr, length)
  {
    PostUncheckedSlots(t, addr, length);
    t1, t2, t3 := StoresChain(t, addr, length);
    t4 := Do(t3, MoveHead);
    t5 := Do(t4, RingBell);
  }

  /** Taken in a row they do what Driver.Adapter.PostTx does in one go. */
  lemma PostInOneGo(s: State, steps: seq<Step>, addr: u64, length: u32)
    requires CanRun(s, steps) && Enabled(Run(s, steps), StoreAddr(addr, length))
    ensures CanRun(s, steps + PostSteps(addr, length))
    ensures PostedOne(Run(s, steps), Run(s, steps + PostSteps(addr, length)), addr, length)
    ensures Lost(s, steps + PostSteps(addr, length)) == Lost(s, steps)
  {
    var t1, t2, t3, t4, t5 := PostChain(Run(s, steps), addr, length);
    var p2, p4 := [StoreAddr(addr, length), StoreLength], [StoreAddr(addr, length), StoreLength, StoreOwn, MoveHead];
    RunLeads(s, steps, StoreAddr(addr, length), t1, StoreLength, t2);
    RunOn(s, steps, p2, t2, StoreOwn, t3, MoveHead, t4);
    assert p2 + [StoreOwn, MoveHead] == p4;
    RunThen(s, steps + p4, RingBell);
    assert steps + p4 + [RingBell] == steps + PostSteps(addr, length);
  }

  // ---- A frame left behind by a failed access ----

  lemma DeliverOne(s: State, steps: seq<Step>)
    requires CanRun(s, steps) && Run(s, steps).bells == [1] && Run(s, steps).device.Between?
    ensures CanRun(s, steps + [DeliverBell])
    ensures var t, t' := Run(s, steps), Run(s, steps + [DeliverBell]);
            && t' == t.(x := t.x.(doorbell := 1, pending := true), bells := [], awake := true)
            && Lost(s, steps + [DeliverBell]) == Lost(s, steps) + t.x.doorbell
  {
    RunThen(s, steps, DeliverBell);
  }

  lemma FailAtOnce(s0: State, p: seq<Step>)
    requires Initial(s0) && CanRun(s0, p) && PostedOne(s0, Run(s0, p), 0, 0) && Lost(s0, p) == 0
    ensures exists steps :: CanRun(s0, steps) && AtRest(Run(s0, steps)) && Lost(s0, steps) == 0
                            && Run(s0, steps).irqs == 1 && |Run(s0, steps).posted| == 1 && Run(s0, steps).done == 0
                            && Run(s0, steps).x.wire == []
  {
    DeliverOne(s0, p);
    var q := p + [DeliverBell];
    RunThen(s0, q, FetchDesc(false));
    assert AtRest(Run(s0, q + [FetchDesc(false)]));
  }

  /** One packet, one doorbell write, one failed descriptor read: the TX-done interrupt is raised and
      everything rests, with the packet unsent although no credit was lost. */
  lemma TxDoneWithoutSending(s0: State)
    requires Initial(s0)
    ensures exists steps :: CanRun(s0, steps) && AtRest(Run(s0, steps)) && Lost(s0, steps) == 0
                            && Run(s0, steps).irqs == 1 && |Run(s0, steps).posted| == 1 && Run(s0, steps).done == 0
                            && Run(s0, steps).x.wire == []
  {
    PostInOneGo(s0, [], 0, 0);
    FailAtOnce(s0, [] + PostSteps(0, 0));
  }

  // ---- A frame left behind by a lost credit ----

  lemma TwoBells(s: State, steps: seq<Step>)
    requires CanRun(s, steps) && Run(s, steps).bells == [1, 1] && Run(s, steps).device.Between?
    ensures CanRun(s, steps + [DeliverBell, DeliverBell])
    ensures var t, t' := Run(s, steps), Run(s, steps + [DeliverBell, DeliverBell]);
            && t' == t.(x := t.x.(doorbell := 1, pending := true), bells := [], awake := true)
            && Lost(s, steps + [DeliverBell, DeliverBell]) == Lost(s, steps) + t.x.doorbell + 1
  {
    RunThen(s, steps, DeliverBell);
    RunThen(s, steps + [DeliverBell], DeliverBell);
    assert steps + [DeliverBell] + [DeliverBell] == steps + [DeliverBell, DeliverBell];
  }

  /** The device's steps for one packet. */
  const SEND_STEPS: seq<Step> := [FetchDesc(true), FetchData(true), Transmit, WriteBack(true), Advance]

  lemma SendChain(t: State) returns (t1: State, t2: State, t3: State, t4: State, t5: State)
    requires Inv(t) && t.device.Between? && t.awake && t.x.pending && t.x.doorbell == 1 && t.done < |t.posted|
    ensures Leads(t, FetchDesc(true), t1) && Leads(t1, FetchData(true), t2) && Leads(t2, Transmit, t3)
    ensures Leads(t3, WriteBack(true), t4) && Leads(t4, Advance, t5)
    ensures t5.done == t.done + 1 && t5.posted == t.posted && t5.device.Between? && t5.awake && t5.x.doorbell == 0
    ensures t5.bells == t.bells && t5.driver == t.driver
  {
    CreditMeansOwn(t);
    t1 := Do(t, FetchDesc(true));
    t2 := Do(t1, FetchData(true));
    t3 := Do(t2, Transmit);
    t4 := Do(t3, WriteBack(true));
    t5 := Do(t4, Advance);
  }

  /** With one credit the process sends one frame and goes to sleep. */
  lemma SendOne(s: State, steps: seq<Step>) returns (more: seq<Step>)
    requires Inv(s) && CanRun(s, steps)
    requires var t := Run(s, steps);
             t.device.Between? && t.awake && t.x.pending && t.x.doorbell == 1 && t.done < |t.posted|
    ensures CanRun(s, more) && Lost(s, more) == Lost(s, steps)
    ensures var t, t' := Run(s, steps), Run(s, more);
            && t'.done == t.done + 1 && t'.posted == t.posted && t'.device.Between? && !t'.awake
            && t'.bells == t.bells && t'.driver == t.driver
  {
    RunKeeps(s, steps);
    var t1, t2, t3, t4, t5 := SendChain(Run(s, steps));
    var p2 := steps + [FetchDesc(true), FetchData(true)];
    RunLeads(s, steps, FetchDesc(true), t1, FetchData(true), t2);
    var p4 := p2 + [Transmit, WriteBack(true)];
    RunLeads(s, p2, Transmit, t3, WriteBack(true), t4);
    RunThen(s, p4, Advance);
    RunThen(s, p4 + [Advance], FetchDesc(true));
    more := p4 + [Advance] + [FetchDesc(true)];
  }

  lemma FirstPosted(s0: State, p: seq<Step>)
    requires Initial(s0) && s0.x.ring.size > 1 && CanRun(s0, p) && PostedOne(s0, Run(s0, p), 0, 0)
    ensures Enabled(Run(s0, p), StoreAddr(0, 0))
  {
    WrapMod(1, s0.x.ring.size);
    assert SlotsIn(Run(s0, p))[1] == SlotsIn(s0)[1] == Desc(0, 0, 0);
  }

  lemma SecondPosted(s0: State, p: seq<Step>, addr: u64, length: u32)
    requires Initial(s0) && CanRun(s0, p) && PostedOne(s0, Run(s0, p), addr, length) && Lost(s0, p) == 0
    requires Enabled(Run(s0, p), StoreAddr(addr, length))
    ensures exists steps :: CanRun(s0, steps) && AtRest(Run(s0, steps)) && Lost(s0, steps) == 1
                            && |Run(s0, steps).posted| == 2 && Run(s0, steps).done == 1
  {
    PostInOneGo(s0, p, addr, length);
    var q := p + PostSteps(addr, length);
    TwoBells(s0, q);
    StartsRight(s0);
    var steps := SendOne(s0, q + [DeliverBell, DeliverBell]);
    assert AtRest(Run(s0, steps));
  }

  /** Two packets posted before the first doorbell write arrives cost a credit, and when everything rests
      one of them is still in the ring. */
  lemma ImpatienceStrandsOne(s0: State)
    requires Initial(s0) && s0.x.ring.size > 1
    ensures exists steps :: CanRun(s0, steps) && AtRest(Run(s0, steps)) && Lost(s0, steps) == 1
                            && |Run(s0, steps).posted| == 2 && Run(s0, steps).done == 1
  {
    PostInOneGo(s0, [], 0, 0);
    var p := [] + PostSteps(0, 0);
    FirstPosted(s0, p);
    SecondPosted(s0, p, 0, 0);
  }

  // ---- A frame overwritten in a full ring ----

  /** n packets posted and none sent. */
  ghost predicate Filled(s: State, n: nat) {
    Inv(s) && |s.posted| == n && s.done == 0 && s.driver.Idle? && s.device.Between?
  }

  lemma {:induction false} FillRing(s0: State, n: nat) returns (steps: seq<Step>)
    requires Initial(s0) && n <= s0.x.ring.size
    ensures CanRun(s0, steps) && Filled(Run(s0, steps), n) && Run(s0, steps).x.ring == s0.x.ring
    decreases n
  {
    if n == 0 {
      StartsRight(s0);
      steps := [];
    } else {
      var p := FillRing(s0, n - 1);
      NextSlotFree(Run(s0, p));
      PostInOneGo(s0, p, 0, 0);
      steps := p + PostSteps(0, 0);
      StartsRight(s0);
      RunKeeps(s0, steps);
    }
  }

  /** The slot the driver would fill next still has OWN, and filling it replaces the descriptor of the
      oldest unsent frame. */
  ghost predicate WouldOverwrite(s: State, length: u32) {
    && s.driver.Idle? && s.device.Between? && s.done < |s.posted| && s.head < s.x.ring.size
    && Own(SlotsIn(s)[s.head])
    && s.x.ring.tail < s.x.ring.size
    && SlotsIn(PostUnchecked(s, 0, length))[s.x.ring.tail] != Handed(s.posted[s.done])
  }

  lemma FullOverwrites(s: State) returns (length: u32)
    requires Filled(s, s.x.ring.size)
    ensures WouldOverwrite(s, length)
  {
    NextSlot(0, s.x.ring.size);
    HeadMeetsTail(s);
    length := if s.posted[0].length == 0 then 1 else 0;
    UncheckedPostExact(s, 0, length);
  }

  /** A driver that keeps posting gets there. */
  lemma FullRingReachable(s0: State)
    requires Initial(s0)
    ensures exists steps, length: u32 ::
              CanRun(s0, steps) && Inv(Run(s0, steps)) && WouldOverwrite(Run(s0, steps), length)
  {
    var steps := FillRing(s0, s0.x.ring.size);
    var length := FullOverwrites(Run(s0, steps));
  }
}
