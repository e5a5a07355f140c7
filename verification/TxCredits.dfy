/** Doorbell credits. The driver always writes 1 to the doorbell, and a write replaces what is there, so
    a write that arrives while credit remains loses that credit; and a failed access puts the transmit
    process to sleep with its credit unused. Together these decide exactly how many posted frames stay
    behind when the ring has come to rest. */
module TxCredits {
  import opened Bits
  import opened GuestMemory
  import opened Protocol
  import opened DmaPath
  import opened Rings
  import opened RingMemory
  import opened TxProtocol
  import opened TxProtocolProof
  import opened TxTheorems

  function One(b: bool): nat { if b then 1 else 0 }

  /** Credit overwritten by this step. */
  function LostBy(s: State, step: Step): nat { if step.DeliverBell? then s.x.doorbell else 0 }

  /** Credit overwritten in a run. */
  function Lost(s: State, steps: seq<Step>): nat
    requires CanRun(s, steps)
    decreases |steps|
  {
    if |steps| == 0 then 0 else LostBy(s, steps[0]) + Lost(Do(s, steps[0]), steps[1..])
  }

  /** Was the last DMA access up to and including this step a failed one, given whether the last one
      before it was? */
  predicate Failed(s: State, step: Step, before: bool) {
    match step
    case FetchDesc(ok) => if s.x.pending && Configured(s.x) then !ok else before
    case FetchData(ok) => !ok
    case WriteBack(ok) => !ok
    case _ => before
  }

  /** Was the last DMA access of the run a failed one? */
  predicate LastFailed(s: State, steps: seq<Step>, before: bool)
    requires CanRun(s, steps)
    decreases |steps|
  {
    if |steps| == 0 then before else LastFailed(Do(s, steps[0]), steps[1..], Failed(s, steps[0], before))
  }

  // ---- The balance ----

  /** Frames handed over and not handed back, counting one whose credit is still to be taken off. */
  function Outstanding(s: State): int { |s.posted| - s.done + One(s.device.WroteBack?) }

  /** Each outstanding frame has a credit in the doorbell, one in a doorbell write on its way, one
      about to be written, or one that was lost. */
  predicate Balanced(s: State, lost: nat) {
    Outstanding(s) == s.x.doorbell + |s.bells| + One(s.driver.OwnStored? || s.driver.HeadMoved?) + lost
  }

  predicate Credit(s: State, lost: nat) {
    && Balanced(s, lost)
    && s.x.doorbell <= 1 && (forall i :: 0 <= i < |s.bells| ==> s.bells[i] == 1)
  }

  /** The process sleeps with credit exactly after a failed access. */
  predicate Sleep(s: State, failed: bool) {
    && (!s.device.Between? ==> s.awake && !failed)
    && (s.awake ==> s.x.pending)
    && (!s.awake ==> (s.x.doorbell > 0 <==> failed))
    && (failed ==> s.x.doorbell > 0)
  }

  /** The device gives up a wake-up for want of OWN only when it has no credit left: with credit there is an
      outstanding frame, and then the tail slot has OWN. */
  lemma CreditMeansOwn(s: State)
    requires Inv(s) && s.device.Between? && s.done < |s.posted|
    ensures Own(SlotRead(s.x.port, s.x.ring))
  {
    assert InRing(s, s.done);
    TailSlot(s.x.port, s.x.ring);
    assert SlotRead(s.x.port, s.x.ring) == SlotsIn(s)[SlotOf(s.done, s.x.ring.size)];
  }

  predicate ByDevice(step: Step) {
    step.FetchDesc? || step.FetchData? || step.Transmit? || step.WriteBack? || step.Advance?
  }

  lemma CreditSpent(s: State, step: Step, lost: nat)
    requires Inv(s) && Credit(s, lost) && Enabled(s, step) && ByDevice(step)
    ensures Credit(Do(s, step), lost)
  {
  }

  lemma CreditGiven(s: State, step: Step, lost: nat)
    requires Inv(s) && Credit(s, lost) && Enabled(s, step) && !ByDevice(step)
    ensures Credit(Do(s, step), lost + LostBy(s, step))
  {
  }

  lemma CreditKept(s: State, step: Step, lost: nat)
    requires Inv(s) && Credit(s, lost) && Enabled(s, step)
    ensures Credit(Do(s, step), lost + LostBy(s, step))
  {
    if ByDevice(step) { CreditSpent(s, step, lost); } else { CreditGiven(s, step, lost); }
  }

  lemma SleepKept(s: State, step: Step, lost: nat, failed: bool)
    requires Inv(s) && Credit(s, lost) && Sleep(s, failed) && Enabled(s, step)
    ensures Sleep(Do(s, step), Failed(s, step, failed))
  {
    if step.FetchDesc? && step.ok && Configured(s.x) { CreditMeansOwn(s); }
  }

  lemma {:induction false} CreditRuns(s: State, steps: seq<Step>, lost: nat, failed: bool)
    requires Inv(s) && Credit(s, lost) && Sleep(s, failed) && CanRun(s, steps)
    ensures Credit(Run(s, steps), lost + Lost(s, steps))
    ensures Sleep(Run(s, steps), LastFailed(s, steps, failed))
    decreases |steps|
  {
    if |steps| > 0 {
      CreditKept(s, steps[0], lost);
      SleepKept(s, steps[0], lost, failed);
      StepKeeps(s, steps[0]);
      CreditRuns(Do(s, steps[0]), steps[1..], lost + LostBy(s, steps[0]), Failed(s, steps[0], failed));
    }
  }

  /** Nothing is under way: the driver is idle, no doorbell write is on its way, and the transmit process
      waits for one, whether or not its flag is set. */
  predicate AtRest(s: State) { s.driver.Idle? && s.bells == [] && s.device.Between? && !s.awake }

  /** A ring at rest has left behind exactly as many posted frames as credits were overwritten, and one
      more if the last DMA access failed, whose credit is then still in the doorbell. So every frame has
      been sent if and only if no doorbell write met an unused credit and the last access succeeded. */
  lemma StrandedExact(s0: State, steps: seq<Step>)
    requires Initial(s0) && CanRun(s0, steps) && AtRest(Run(s0, steps))
    ensures var s := Run(s0, steps);
            && |s.posted| - s.done == Lost(s0, steps) + One(LastFailed(s0, steps, false))
            && s.x.doorbell == One(LastFailed(s0, steps, false))
            && (s.done == |s.posted| <==> Lost(s0, steps) == 0 && !LastFailed(s0, steps, false))
  {
    StartsRight(s0);
    CreditRuns(s0, steps, 0, false);
  }

  // ---- A driver that waits for its packets ----

  /** Every packet is begun only once the previous one has been handed back. */
  predicate Patient(s: State, steps: seq<Step>)
    requires CanRun(s, steps)
    decreases |steps|
  {
    |steps| == 0
    || ((steps[0].StoreAddr? ==> Outstanding(s) == 0) && Patient(Do(s, steps[0]), steps[1..]))
  }

  predicate AtMostOne(s: State) {
    0 <= |s.posted| - s.done && Outstanding(s) + One(s.driver.AddrStored? || s.driver.LengthStored?) <= 1
  }

  lemma AtMostOneKept(s: State, step: Step)
    requires Inv(s) && AtMostOne(s) && Enabled(s, step) && (step.StoreAddr? ==> Outstanding(s) == 0)
    ensures AtMostOne(Do(s, step))
  {
  }

  lemma {:induction false} PatientLosesNothing(s: State, steps: seq<Step>)
    requires Inv(s) && Credit(s, 0) && AtMostOne(s) && CanRun(s, steps) && Patient(s, steps)
    ensures Lost(s, steps) == 0
    decreases |steps|
  {
    if |steps| > 0 {
      CreditKept(s, steps[0], 0);
      StepKeeps(s, steps[0]);
      AtMostOneKept(s, steps[0]);
      PatientLosesNothing(Do(s, steps[0]), steps[1..]);
    }
  }

  /** With such a driver no credit is overwritten, and a ring at rest has sent everything if and only if
      the last access succeeded; without failed write-backs it has sent it once. */
  lemma PatientDriverExact(s0: State, steps: seq<Step>)
    requires Initial(s0) && CanRun(s0, steps) && Patient(s0, steps) && AtRest(Run(s0, steps))
    ensures var s := Run(s0, steps);
            && Lost(s0, steps) == 0
            && (s.done == |s.posted| <==> !LastFailed(s0, steps, false))
            && (s.done == |s.posted| && FailedWriteBacks(steps) == 0 ==>
                  |s.x.wire| == |s.posted| && forall j :: 0 <= j < |s.posted| ==> s.x.wire[j] == s.posted[j].frame)
  {
    StartsRight(s0);
    PatientLosesNothing(s0, steps);
    StrandedExact(s0, steps);
    if FailedWriteBacks(steps) == 0 { FifoExactlyOnce(s0, steps); }
  }

  // ---- A driver that waits for the TX-done interrupt ----

  /** Every packet is begun only with the transmit process asleep again after the last one, which is what
      the TX-done interrupt says; it does not say that the packet was sent. */
  predicate WaitsForTxDone(s: State, steps: seq<Step>)
    requires CanRun(s, steps)
    decreases |steps|
  {
    |steps| == 0
    || ((steps[0].StoreAddr? ==> AtRest(s)) && WaitsForTxDone(Do(s, steps[0]), steps[1..]))
  }

  predicate AllSucceed(steps: seq<Step>) {
    forall i :: 0 <= i < |steps| ==>
      steps[i] != FetchDesc(false) && steps[i] != FetchData(false) && steps[i] != WriteBack(false)
  }

  lemma {:induction false} TxDoneIsPatient(s: State, steps: seq<Step>)
    requires Inv(s) && Credit(s, 0) && Sleep(s, false) && AtMostOne(s)
    requires CanRun(s, steps) && WaitsForTxDone(s, steps) && AllSucceed(steps)
    ensures Patient(s, steps) && !LastFailed(s, steps, false)
    decreases |steps|
  {
    if |steps| > 0 {
      CreditKept(s, steps[0], 0);
      SleepKept(s, steps[0], 0, false);
      StepKeeps(s, steps[0]);
      AtMostOneKept(s, steps[0]);
      assert LostBy(s, steps[0]) == 0;
      TxDoneIsPatient(Do(s, steps[0]), steps[1..]);
    }
  }

  /** While no access fails, waiting for TX-done is as good as waiting for the packet. */
  lemma TxDoneDriverSendsAll(s0: State, steps: seq<Step>)
    requires Initial(s0) && CanRun(s0, steps) && WaitsForTxDone(s0, steps) && AllSucceed(steps)
    requires AtRest(Run(s0, steps))
    ensures Run(s0, steps).done == |Run(s0, steps).posted|
  {
    StartsRight(s0);
    TxDoneIsPatient(s0, steps);
    PatientDriverExact(s0, steps);
  }
}
