/** The interrupt status register between the device, which sets bits at any time, and the driver's
    interrupt handler, which reads it and then clears what it read through the posted-write stream. */
module IrqStatus {
  import opened Bits
  import opened Protocol
  import RegisterBlock

  datatype Request = ReadSts | Clear(val: u32) | Test(val: u32)

  /** The handler: not running, waiting for its read, or holding a non-zero snapshot it has yet to clear. */
  datatype Handler = Resting | Reading | Holding(snap: u32)

  /** What happened at the device, in order. */
  datatype Event =
    | Raised(bits: u32, before: u32)
    | Seen(val: u32)
    | Cleared(val: u32)

  datatype State = State(
    sts: u32,
    stream: seq<Request>,      // towards the device
    answer: seq<u32>,          // the read response on its way back
    handler: Handler,
    first: u32, log: seq<Event>)

  datatype Step =
    | Raise(bits: u32)         // DMA done, TX done, RX: the device's own processes
    | Enter                    // the handler starts: read IRQ_STS
    | Take                     // the handler gets its value
    | Post                     // the handler posts the clear
    | WriteTest(val: u32)      // the driver writes IRQ_TEST
    | Device                   // the device executes the next request

  predicate Enabled(s: State, step: Step) {
    match step
    case Raise(_) => true
    case Enter => s.handler.Resting?
    case Take => s.handler.Reading? && |s.answer| > 0
    case Post => s.handler.Holding?
    case WriteTest(_) => true
    case Device => |s.stream| > 0
  }

  function Risen(s: State, bits: u32): State {
    s.(sts := Or32(s.sts, bits), log := s.log + [Raised(bits, s.sts)])
  }

  function Do(s: State, step: Step): State
    requires Enabled(s, step)
  {
    match step
    case Raise(bits) => Risen(s, bits)
    case Enter => s.(stream := s.stream + [ReadSts], handler := Reading)
    case Take => s.(answer := s.answer[1..], handler := if s.answer[0] == 0 then Resting else Holding(s.answer[0]))
    case Post => s.(stream := s.stream + [Clear(s.handler.snap)], handler := Resting)
    case WriteTest(v) => s.(stream := s.stream + [Test(v)])
    case Device =>
      var t := s.(stream := s.stream[1..]);
      match s.stream[0]
      case ReadSts => t.(answer := s.answer + [s.sts], log := s.log + [Seen(s.sts)])
      case Clear(v) => t.(sts := AndNot32(s.sts, v), log := s.log + [Cleared(v)])
      case Test(v) => if v != 0 then Risen(t, SC_IRQ_TEST) else t
  }

  predicate CanRun(s: State, steps: seq<Step>)
    decreases |steps|
  {
    |steps| == 0 || (Enabled(s, steps[0]) && CanRun(Do(s, steps[0]), steps[1..]))
  }

  function Run(s: State, steps: seq<Step>): State
    requires CanRun(s, steps)
    decreases |steps|
  {
    if |steps| == 0 then s else Run(Do(s, steps[0]), steps[1..])
  }

  predicate Initial(s: State) {
    s.stream == [] && s.answer == [] && s.handler.Resting? && s.first == s.sts && s.log == []
  }

  /** The device end is the register block: the three requests are a read of IRQ_STS and writes of
      IRQ_STS and IRQ_TEST. */
  lemma DeviceIsRegBlock(s: State, rb: RegisterBlock.RegState)
    requires |s.stream| > 0 && RegisterBlock.Get(rb.regs, SC_REG_IRQ_STS) == s.sts
    ensures var t := Do(s, Device);
            match s.stream[0]
            case ReadSts => t.answer == s.answer + [RegisterBlock.Read(rb.regs, SC_REG_IRQ_STS)] && t.sts == s.sts
            case Clear(v) => t.sts == RegisterBlock.Get(RegisterBlock.Write(rb, SC_REG_IRQ_STS, v).regs, SC_REG_IRQ_STS)
            case Test(v) => t.sts == RegisterBlock.Get(RegisterBlock.Write(rb, SC_REG_IRQ_TEST, v).regs, SC_REG_IRQ_STS)
  {
  }

  /** The handler's steps and the device's, taken in a row on a quiet stream. */
  function HandlerRun(sts: u32): seq<Step> {
    if sts == 0 then [Enter, Device, Take] else [Enter, Device, Take, Post, Device]
  }

  /** They clear the whole status, as Adapter.IrqHandler does. */
  lemma HandlerInOneGo(s: State)
    requires s.handler.Resting? && s.stream == [] && s.answer == []
    ensures CanRun(s, HandlerRun(s.sts))
    ensures Run(s, HandlerRun(s.sts))
            == s.(sts := 0, log := s.log + [Seen(s.sts)] + if s.sts == 0 then [] else [Cleared(s.sts)])
  {
    var steps := HandlerRun(s.sts);
    var s1 := Do(s, Enter);
    var s2 := Do(s1, Device);
    var s3 := Do(s2, Take);
    assert s1.stream == [ReadSts] && s2.stream == [] && s2.answer == [s.sts];
    if s.sts == 0 {
      assert CanRun(s3, steps[3..]) && Run(s3, steps[3..]) == s3;
    } else {
      AllBitsCleared(s.sts, s.sts);
      var s4 := Do(s3, Post);
      assert s4.stream == [Clear(s.sts)];
      var s5 := Do(s4, Device);
      assert CanRun(s5, steps[5..]) && Run(s5, steps[5..]) == s5;
      assert steps[4..] == [Device] && steps[3..] == [Post, Device];
      assert CanRun(s4, steps[4..]) && Run(s4, steps[4..]) == s5;
      assert CanRun(s3, steps[3..]) && Run(s3, steps[3..]) == s5;
    }
    assert steps[2..][1..] == steps[3..] && steps[1..][1..] == steps[2..];
    assert CanRun(s2, steps[2..]) && Run(s2, steps[2..]) == Run(s3, steps[3..]);
    assert CanRun(s1, steps[1..]) && Run(s1, steps[1..]) == Run(s3, steps[3..]);
  }

  // ---- What the history says about one bit ----

  /** The event takes bit k from 0 to 1. */
  predicate Rises(e: Event, k: nat) { e.Raised? && Bit(e.bits, k) && !Bit(e.before, k) }

  predicate Shows(e: Event, k: nat) { e.Seen? && Bit(e.val, k) }

  /** Bit k has gone up (or was up at the start) and no read has shown it since. */
  predicate Unseen(first: u32, log: seq<Event>, k: nat)
    decreases |log|
  {
    if |log| == 0 then Bit(first, k)
    else
      var last := log[|log| - 1];
      Rises(last, k) || (!Shows(last, k) && Unseen(first, log[..|log| - 1], k))
  }

  /** A read has shown bit k, and the bit has not gone up again since. */
  predicate SeenSince(log: seq<Event>, k: nat)
    decreases |log|
  {
    |log| > 0 &&
    var last := log[|log| - 1];
    Shows(last, k) || (!Rises(last, k) && SeenSince(log[..|log| - 1], k))
  }

  // ---- Snapshots on their way to clearing something ----

  function HeldIn(r: Request): seq<u32> { if r.Clear? then [r.val] else [] }

  function HeldBy(q: seq<Request>): seq<u32> {
    if |q| == 0 then [] else HeldIn(q[0]) + HeldBy(q[1..])
  }

  function ReadsIn(q: seq<Request>): nat {
    if |q| == 0 then 0 else (if q[0].ReadSts? then 1 else 0) + ReadsIn(q[1..])
  }

  lemma {:induction false} Pushed(q: seq<Request>, r: Request)
    ensures HeldBy(q + [r]) == HeldBy(q) + HeldIn(r)
    ensures ReadsIn(q + [r]) == ReadsIn(q) + if r.ReadSts? then 1 else 0
  {
    if |q| == 0 {
      assert (q + [r])[1..] == [];
    } else {
      assert (q + [r])[1..] == q[1..] + [r];
      Pushed(q[1..], r);
    }
  }

  /** Clears stand in front of the one read that may be in the stream. */
  predicate Ordered(q: seq<Request>) {
    |q| == 0 || if q[0].ReadSts? then HeldBy(q[1..]) == [] && ReadsIn(q[1..]) == 0 else Ordered(q[1..])
  }

  lemma {:induction false} OrderedPushed(q: seq<Request>, r: Request)
    requires Ordered(q) && (!r.Test? ==> ReadsIn(q) == 0)
    ensures Ordered(q + [r])
  {
    if |q| == 0 {
      assert (q + [r])[1..] == [];
    } else {
      assert (q + [r])[1..] == q[1..] + [r];
      if q[0].ReadSts? { Pushed(q[1..], r); } else { OrderedPushed(q[1..], r); }
    }
  }

  function Held(s: State): seq<u32> {
    HeldBy(s.stream) + (if s.handler.Holding? then [s.handler.snap] else []) + s.answer
  }

  /** Every bit of the snapshot has been seen, is still up, and has not risen since. */
  ghost predicate Covered(s: State, snap: u32) {
    forall k: nat :: Bit(snap, k) ==> Bit(s.sts, k) && SeenSince(s.log, k)
  }

  ghost predicate Inv(s: State) {
    && Ordered(s.stream) && ReadsIn(s.stream) + |s.answer| == (if s.handler.Reading? then 1 else 0)
    && |Held(s)| <= 1 && (forall i :: 0 <= i < |Held(s)| ==> Covered(s, Held(s)[i]))
    && (forall k: nat :: Unseen(s.first, s.log, k) ==> Bit(s.sts, k))
    && ClearsSeen(s.log)
  }

  /** Every clear in the history named only bits that a read had shown and that had not risen since. */
  ghost predicate ClearsSeen(log: seq<Event>) {
    forall i, k: nat :: 0 <= i < |log| && log[i].Cleared? && Bit(log[i].val, k) ==> SeenSince(log[..i], k)
  }

  lemma Grown(first: u32, log: seq<Event>, e: Event, k: nat)
    ensures Unseen(first, log + [e], k) <==> Rises(e, k) || (!Shows(e, k) && Unseen(first, log, k))
    ensures SeenSince(log + [e], k) <==> Shows(e, k) || (!Rises(e, k) && SeenSince(log, k))
  {
    assert (log + [e])[..|log|] == log;
  }

  lemma {:induction false} SeenIsNotUnseen(first: u32, log: seq<Event>, k: nat)
    requires SeenSince(log, k)
    ensures !Unseen(first, log, k)
    decreases |log|
  {
    var last := log[|log| - 1];
    if !Shows(last, k) { SeenIsNotUnseen(first, log[..|log| - 1], k); }
  }

  lemma ClearsGrown(log: seq<Event>, e: Event)
    requires ClearsSeen(log) && (e.Cleared? ==> forall k: nat :: Bit(e.val, k) ==> SeenSince(log, k))
    ensures ClearsSeen(log + [e])
  {
    var log' := log + [e];
    forall i, k: nat | 0 <= i < |log'| && log'[i].Cleared? && Bit(log'[i].val, k) ensures SeenSince(log'[..i], k) {
      assert log'[..i] == log[..i];
      if i == |log| { assert log[..i] == log; }
    }
  }

  /** A raise: covered bits were up already, so they do not rise; bits that do rise are up now. */
  lemma RaiseKeeps(s: State, bits: u32, k: nat)
    requires Unseen(s.first, s.log, k) ==> Bit(s.sts, k)
    ensures var t := Risen(s, bits);
            && (Unseen(t.first, t.log, k) ==> Bit(t.sts, k))
            && (Bit(s.sts, k) && SeenSince(s.log, k) ==> Bit(t.sts, k) && SeenSince(t.log, k))
  {
    BitOr(s.sts, bits, k);
    Grown(s.first, s.log, Raised(bits, s.sts), k);
  }

  lemma RisenKeeps(s: State, bits: u32)
    requires Inv(s)
    ensures Inv(Risen(s, bits))
  {
    var t := Risen(s, bits);
    assert Held(t) == Held(s);
    forall k: nat
      ensures Unseen(t.first, t.log, k) ==> Bit(t.sts, k)
      ensures Bit(s.sts, k) && SeenSince(s.log, k) ==> Bit(t.sts, k) && SeenSince(t.log, k)
    {
      RaiseKeeps(s, bits, k);
    }
    ClearsGrown(s.log, Raised(bits, s.sts));
  }

  lemma {:induction false} OnlyTests(q: seq<Request>)
    requires HeldBy(q) == [] && ReadsIn(q) == 0
    ensures Ordered(q)
  {
    if |q| > 0 { OnlyTests(q[1..]); }
  }

  lemma SeeKeeps(s: State)
    requires Inv(s) && |s.stream| > 0 && s.stream[0].ReadSts?
    ensures Inv(Do(s, Device))
  {
    var t := Do(s, Device);
    OnlyTests(t.stream);
    assert Held(t) == [s.sts];
    forall k: nat
      ensures Unseen(t.first, t.log, k) ==> Bit(t.sts, k)
      ensures Bit(s.sts, k) ==> SeenSince(t.log, k)
    {
      Grown(s.first, s.log, Seen(s.sts), k);
    }
    ClearsGrown(s.log, Seen(s.sts));
  }

  lemma ClearKeeps(s: State)
    requires Inv(s) && |s.stream| > 0 && s.stream[0].Clear?
    ensures Inv(Do(s, Device))
  {
    var t, v := Do(s, Device), s.stream[0].val;
    assert Held(s)[0] == v;
    assert Covered(s, v);
    forall k: nat ensures Unseen(t.first, t.log, k) ==> Bit(t.sts, k) {
      Grown(s.first, s.log, Cleared(v), k);
      BitAndNot(s.sts, v, k);
      if SeenSince(s.log, k) { SeenIsNotUnseen(s.first, s.log, k); }
    }
    ClearsGrown(s.log, Cleared(v));
  }

  lemma PostKeeps(s: State)
    requires Inv(s) && s.handler.Holding?
    ensures Inv(Do(s, Post))
  {
    var r := Clear(s.handler.snap);
    OrderedPushed(s.stream, r);
    Pushed(s.stream, r);
    assert Held(Do(s, Post)) == Held(s);
  }

  lemma EnterKeeps(s: State)
    requires Inv(s) && s.handler.Resting?
    ensures Inv(Do(s, Enter))
  {
    OrderedPushed(s.stream, ReadSts);
    Pushed(s.stream, ReadSts);
    assert Held(Do(s, Enter)) == Held(s);
  }

  lemma TakeKeeps(s: State)
    requires Inv(s) && Enabled(s, Take)
    ensures Inv(Do(s, Take))
  {
    var t := Do(s, Take);
    assert Held(s) == HeldBy(s.stream) + s.answer && |s.answer| == 1;
    assert Held(t) == if s.answer[0] == 0 then [] else Held(s);
  }

  lemma WriteTestKeeps(s: State, v: u32)
    requires Inv(s)
    ensures Inv(Do(s, WriteTest(v)))
  {
    OrderedPushed(s.stream, Test(v));
    Pushed(s.stream, Test(v));
    assert Held(Do(s, WriteTest(v))) == Held(s);
  }

  lemma TestKeeps(s: State)
    requires Inv(s) && |s.stream| > 0 && s.stream[0].Test?
    ensures Inv(Do(s, Device))
  {
    var t := s.(stream := s.stream[1..]);
    assert Held(t) == Held(s);
    if s.stream[0].val != 0 { RisenKeeps(t, SC_IRQ_TEST); }
  }

  lemma StepKeeps(s: State, step: Step)
    requires Inv(s) && Enabled(s, step)
    ensures Inv(Do(s, step))
  {
    match step
    case Raise(bits) => RisenKeeps(s, bits);
    case Enter => EnterKeeps(s);
    case Take => TakeKeeps(s);
    case Post => PostKeeps(s);
    case WriteTest(v) => WriteTestKeeps(s, v);
    case Device =>
      match s.stream[0]
      case ReadSts => SeeKeeps(s);
      case Clear(_) => ClearKeeps(s);
      case Test(_) => TestKeeps(s);
  }

  lemma {:induction false} RunKeeps(s: State, steps: seq<Step>)
    requires Inv(s) && CanRun(s, steps)
    ensures Inv(Run(s, steps)) && Run(s, steps).first == s.first
    decreases |steps|
  {
    if |steps| > 0 {
      StepKeeps(s, steps[0]);
      RunKeeps(Do(s, steps[0]), steps[1..]);
    }
  }

  // ---- Results ----

  lemma {:induction false} UnseenAfter(first: u32, log: seq<Event>, i: nat, k: nat)
    requires i < |log| && Rises(log[i], k)
    requires forall j :: i < j < |log| ==> !Shows(log[j], k)
    ensures Unseen(first, log, k)
    decreases |log|
  {
    if i < |log| - 1 {
      assert log[..|log| - 1][i] == log[i];
      UnseenAfter(first, log[..|log| - 1], i, k);
    }
  }

  /** No interrupt bit is lost: whatever the interleaving, a bit that went from 0 to 1 is still pending, or
      a handler read made after that showed it. */
  lemma NoBitLost(s: State, steps: seq<Step>, i: nat, k: nat)
    requires Initial(s) && CanRun(s, steps)
    requires i < |Run(s, steps).log| && Rises(Run(s, steps).log[i], k)
    ensures var t := Run(s, steps);
            Bit(t.sts, k) || exists j :: i < j < |t.log| && Shows(t.log[j], k)
  {
    RunKeeps(s, steps);
    var t := Run(s, steps);
    if forall j :: i < j < |t.log| ==> !Shows(t.log[j], k) { UnseenAfter(s.first, t.log, i, k); }
  }

  lemma {:induction false} SeenAt(log: seq<Event>, k: nat) returns (j: nat)
    requires SeenSince(log, k)
    ensures j < |log| && Shows(log[j], k) && forall m :: j < m < |log| ==> !Rises(log[m], k)
    decreases |log|
  {
    var last := |log| - 1;
    if Shows(log[last], k) {
      j := last;
    } else {
      j := SeenAt(log[..last], k);
      assert forall m :: j < m < last ==> log[..last][m] == log[m];
    }
  }

  /** And a bit the handler has not seen is never cleared: every clear of a bit comes after a read that
      showed it, with no new rise of the bit in between. */
  lemma ClearsOnlySeen(s: State, steps: seq<Step>, i: nat, k: nat)
    requires Initial(s) && CanRun(s, steps)
    requires var log := Run(s, steps).log; i < |log| && log[i].Cleared? && Bit(log[i].val, k)
    ensures var log := Run(s, steps).log;
            exists j :: 0 <= j < i && Shows(log[j], k) && forall m :: j < m < i ==> !Rises(log[m], k)
  {
    RunKeeps(s, steps);
    var log := Run(s, steps).log;
    var j := SeenAt(log[..i], k);
    assert log[..i][j] == log[j];
    forall m | j < m < i ensures !Rises(log[m], k) { assert log[..i][m] == log[m]; }
  }

  /** A raise that arrives while a clear is on its way leaves its bit pending exactly when the handler's
      snapshot did not already have that bit; otherwise it merges with the one being handled. */
  lemma RaiseDuringClear(s: State, bits: u32, k: nat)
    requires |s.stream| > 0 && s.stream[0].Clear? && Bit(bits, k)
    ensures Bit(Do(Do(s, Raise(bits)), Device).sts, k) <==> !Bit(s.stream[0].val, k)
  {
    BitOr(s.sts, bits, k);
    BitAndNot(Or32(s.sts, bits), s.stream[0].val, k);
  }
}
