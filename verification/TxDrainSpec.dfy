/** What one uninterrupted run of process_tx's inner loop does, stated without the loop. */
module TxDrainSpec {
  import opened Bits
  import opened GuestMemory
  import opened Protocol
  import opened DmaPath
  import opened Rings
  import opened RingMemory

  function SlotsOf(x: Tx): seq<Desc> { Slots(x.port.mem, x.ring.base, x.ring.size) }

  /** The packet buffers of the slots handed over lie outside the ring. */
  predicate BuffersOutside(s: seq<Desc>, base: nat) {
    forall i :: 0 <= i < |s| && Own(s[i]) ==> BufferOutside(s[i], base, |s|)
  }

  /** A woken device on a walkable ring, with no failing access. */
  predicate Ready(x: Tx) {
    x.pending && WellFormed(x.ring) && x.port.faults == [] && BuffersOutside(SlotsOf(x), x.ring.base)
  }

  /** How many frames the drain sends: the doorbell credit, or the run of OWN slots if shorter. */
  function DrainCount(s: seq<Desc>, t: nat, doorbell: nat): nat
    requires t < |s|
  {
    Min(doorbell, OwnRun(s, t, |s|))
  }

  /** Is slot i one of the count slots from t on? */
  predicate InWindow(i: nat, t: nat, count: nat, size: nat)
    requires i < size && t < size && count <= size
  {
    exists j :: 0 <= j < count && i == After(t, j, size)
  }

  /** w' is w and then the frames of the count slots from t on, in ring order. */
  ghost predicate Sent(w: seq<Frame>, w': seq<Frame>, mem: Memory, s: seq<Desc>, t: nat, count: nat)
    requires t < |s| && count <= |s|
  {
    && |w'| == |w| + count && w'[..|w|] == w
    && forall j :: 0 <= j < count ==> w'[|w| + j] == FrameOf(mem, s[After(t, j, |s|)])
  }

  /** s' is s with exactly the count descriptors from t on completed. */
  ghost predicate HandedBack(s: seq<Desc>, s': seq<Desc>, t: nat, count: nat)
    requires t < |s| && count <= |s|
  {
    && |s'| == |s|
    && forall i :: 0 <= i < |s| ==> s'[i] == if InWindow(i, t, count, |s|) then Completed(s[i]) else s[i]
  }

  /** What sending descriptor d does when no access fails. */
  function Sending(x: Tx, d: Desc): Tx
    requires WellFormed(x.ring) && x.doorbell > 0
  {
    var mem' := Store(x.port.mem, SlotAddr(x.ring), EncodeDesc(Completed(d)));
    Tx(x.ring.(tail := After(x.ring.tail, 1, x.ring.size)), x.doorbell - 1, Port(mem', []),
       x.wire + [FrameOf(x.port.mem, d)], x.pending)
  }

  lemma SendIs(x: Tx, d: Desc)
    requires WellFormed(x.ring) && x.doorbell > 0 && x.port.faults == []
    ensures Send(x, d) == Sending(x, d)
  {
    TailWritten(x.port, x.ring, Completed(d));
    NextTailIs(x.ring);
  }

  lemma PassIs(x: Tx)
    requires Ready(x) && x.doorbell > 0 && Own(SlotsOf(x)[x.ring.tail])
    ensures Advances(x) && Pass(x) == Sending(x, SlotsOf(x)[x.ring.tail])
  {
    TailSlot(x.port, x.ring);
    assert x.(port := Tick(x.port)) == x;
    SendIs(x, SlotsOf(x)[x.ring.tail]);
  }

  /** One pass that sends. */
  lemma PassSends(x: Tx)
    requires Ready(x) && x.doorbell > 0 && Own(SlotsOf(x)[x.ring.tail])
    ensures var d := SlotsOf(x)[x.ring.tail];
            var x' := Pass(x);
            && Advances(x) && Ready(x')
            && x' == Tx(x.ring.(tail := After(x.ring.tail, 1, x.ring.size)), x.doorbell - 1, Port(x'.port.mem, []),
                        x.wire + [FrameOf(x.port.mem, d)], true)
            && SlotsOf(x') == SlotsOf(x)[x.ring.tail := Completed(d)]
            && SameOutside(x.port.mem, x'.port.mem, x.ring.base, x.ring.size)
  {
    PassIs(x);
    var d := SlotsOf(x)[x.ring.tail];
    TailWritten(x.port, x.ring, Completed(d));
  }

  /** With no credit, or with the tail slot not handed over, the loop stops and clears its flag. */
  lemma PassStops(x: Tx)
    requires Ready(x) && (x.doorbell == 0 || !Own(SlotsOf(x)[x.ring.tail]))
    ensures !Advances(x) && Pass(x) == x.(pending := false)
  {
    TailSlot(x.port, x.ring);
  }

  /** The closed form of a drain from x to x'. */
  ghost predicate Drained(x: Tx, x': Tx)
    requires x.ring.tail < x.ring.size
  {
    var c := DrainCount(SlotsOf(x), x.ring.tail, x.doorbell);
    // tail and doorbell move by the number of frames sent, and the wake-up flag is spent
    && x' == Tx(x.ring.(tail := After(x.ring.tail, c, x.ring.size)), x.doorbell - c, x'.port, x'.wire, false)
    && x'.port.faults == []
    && Sent(x.wire, x'.wire, x.port.mem, SlotsOf(x), x.ring.tail, c)
    && HandedBack(SlotsOf(x), SlotsOf(x'), x.ring.tail, c)
    && SameOutside(x.port.mem, x'.port.mem, x.ring.base, x.ring.size)
  }

  /** The drain sends DrainCount frames in ring order, completes exactly their descriptors, moves
      tail and doorbell by that many, and changes nothing else in memory. */
  lemma {:induction false} DrainMeetsSpec(x: Tx)
    requires Ready(x)
    ensures Drained(x, Drain(x))
    decreases x.doorbell
  {
    var s, t := SlotsOf(x), x.ring.tail;
    if x.doorbell == 0 || !Own(s[t]) {
      PassStops(x);
      assert DrainCount(s, t, x.doorbell) == 0;
    } else {
      PassSends(x);
      DrainMeetsSpec(Pass(x));
      DrainedShift(x, Pass(x), Drain(x));
    }
  }

  /** One sending pass in front of a drain. */
  lemma DrainedShift(x: Tx, x1: Tx, x': Tx)
    requires Ready(x) && x.doorbell > 0
    requires Own(SlotsOf(x)[x.ring.tail])
    requires x1 == Tx(x.ring.(tail := After(x.ring.tail, 1, x.ring.size)), x.doorbell - 1, x1.port,
                      x.wire + [FrameOf(x.port.mem, SlotsOf(x)[x.ring.tail])], true)
    requires SlotsOf(x1) == SlotsOf(x)[x.ring.tail := Completed(SlotsOf(x)[x.ring.tail])]
    requires SameOutside(x.port.mem, x1.port.mem, x.ring.base, x.ring.size)
    requires Drained(x1, x')
    ensures Drained(x, x')
  {
    var s, t := SlotsOf(x), x.ring.tail;
    var c := DrainCount(SlotsOf(x1), x1.ring.tail, x1.doorbell);
    CountShift(s, t, x.doorbell);
    SentShift(x.port.mem, x1.port.mem, x.ring.base, s, t, c, x.wire, x1.wire, x'.wire);
    HandedBackShift(s, SlotsOf(x1), SlotsOf(x'), t, c);
    AfterStep(t, c, x.ring.size);
  }

  lemma CountShift(s: seq<Desc>, t: nat, doorbell: nat)
    requires t < |s| && Own(s[t]) && doorbell > 0
    ensures DrainCount(s, t, doorbell)
            == 1 + DrainCount(s[t := Completed(s[t])], After(t, 1, |s|), doorbell - 1)
  {
    OwnRunBehind(s, t, 1, Completed(s[t]));
  }

  lemma SentShift(m: Memory, m1: Memory, base: nat, s: seq<Desc>, t: nat, c: nat,
                  w: seq<Frame>, w1: seq<Frame>, w': seq<Frame>)
    requires t < |s| && c < |s| && c + 1 <= OwnRun(s, t, |s|) && BuffersOutside(s, base)
    requires SameOutside(m, m1, base, |s|)
    requires w1 == w + [FrameOf(m, s[t])]
    requires Sent(w1, w', m1, s[t := Completed(s[t])], After(t, 1, |s|), c)
    ensures Sent(w, w', m, s, t, c + 1)
  {
    PrefixChains(w, w1, w', FrameOf(m, s[t]));
    OwnRunExact(s, t, |s|);
    forall j | 0 < j < c + 1 ensures w'[|w| + j] == FrameOf(m, s[After(t, j, |s|)]) {
      SentShiftAt(m, m1, base, s, t, c, w1, w', j);
    }
  }

  lemma PrefixChains(w: seq<Frame>, w1: seq<Frame>, w': seq<Frame>, f: Frame)
    requires w1 == w + [f] && |w'| >= |w1| && w'[..|w1|] == w1
    ensures w'[..|w|] == w && w'[|w|] == f
  {
    assert w'[..|w|] == w'[..|w1|][..|w|];
    assert w'[|w|] == w'[..|w1|][|w|];
  }

  lemma SentShiftAt(m: Memory, m1: Memory, base: nat, s: seq<Desc>, t: nat, c: nat,
                    w1: seq<Frame>, w': seq<Frame>, j: nat)
    requires t < |s| && c < |s| && 0 < j < c + 1 && BuffersOutside(s, base)
    requires SameOutside(m, m1, base, |s|) && Own(s[After(t, j, |s|)])
    requires Sent(w1, w', m1, s[t := Completed(s[t])], After(t, 1, |s|), c)
    ensures w'[|w1| + j - 1] == FrameOf(m, s[After(t, j, |s|)])
  {
    AfterStep(t, j - 1, |s|);
    var i, s1 := After(t, j, |s|), s[t := Completed(s[t])];
    assert i != t && |s1| == |s|;
    assert w'[|w1| + (j - 1)] == FrameOf(m1, s1[After(After(t, 1, |s1|), j - 1, |s1|)]);
    FrameUnaffected(m, m1, base, |s|, s[i]);
  }

  lemma HandedBackShift(s: seq<Desc>, s1: seq<Desc>, s': seq<Desc>, t: nat, c: nat)
    requires t < |s| && c < |s| && s1 == s[t := Completed(s[t])]
    requires HandedBack(s1, s', After(t, 1, |s|), c)
    ensures HandedBack(s, s', t, c + 1)
  {
    forall i | 0 <= i < |s|
      ensures s'[i] == if InWindow(i, t, c + 1, |s|) then Completed(s[i]) else s[i]
    {
      WindowShift(i, t, c + 1, |s|);
    }
  }

  lemma WindowShift(i: nat, t: nat, c: nat, size: nat)
    requires i < size && t < size && 0 < c <= size
    ensures InWindow(i, t, c, size) <==> i == t || InWindow(i, After(t, 1, size), c - 1, size)
    ensures !InWindow(t, After(t, 1, size), c - 1, size)
  {
    if InWindow(i, t, c, size) && i != t {
      var j :| 0 <= j < c && i == After(t, j, size);
      AfterStep(t, j - 1, size);
      assert i == After(After(t, 1, size), j - 1, size);
    }
    if InWindow(i, After(t, 1, size), c - 1, size) {
      var j :| 0 <= j < c - 1 && i == After(After(t, 1, size), j, size);
      AfterStep(t, j, size);
      assert i == After(t, j + 1, size);
    }
    if i == t { assert i == After(t, 0, size); }
  }

  /** What the written-back descriptors say: exactly the drained slots are handed back, each with its buffer,
      its length and its other flags as the driver left them. */
  lemma DrainWritesBack(x: Tx, i: nat)
    requires Ready(x) && i < x.ring.size
    ensures var s, s' := SlotsOf(x), SlotsOf(Drain(x));
            && |s'| == |s|
            && if InWindow(i, x.ring.tail, DrainCount(s, x.ring.tail, x.doorbell), |s|)
               then Own(s[i]) && WrittenBack(s[i], s'[i])
               else s'[i] == s[i]
  {
    var s, t := SlotsOf(x), x.ring.tail;
    DrainMeetsSpec(x);
    CompletedExact(s[i]);
    OwnRunExact(s, t, |s|);
  }

  /** A doorbell of 1, which is what the driver always writes, sends one frame: after the drain the
      slot at the new tail is still waiting just when two or more had been handed over. */
  lemma DoorbellOfOne(x: Tx)
    requires Ready(x) && x.doorbell == 1 && x.ring.size > 1
    ensures var x' := Drain(x);
            && x'.ring.tail < |SlotsOf(x')|
            && (Own(SlotsOf(x')[x'.ring.tail]) <==> OwnRun(SlotsOf(x), x.ring.tail, x.ring.size) >= 2)
  {
    var s, t := SlotsOf(x), x.ring.tail;
    DrainMeetsSpec(x);
    if DrainCount(s, t, 1) == 1 {
      SecondSlot(s, SlotsOf(Drain(x)), t);
    } else {
      assert !InWindow(t, t, 0, |s|);
    }
  }

  lemma SecondSlot(s: seq<Desc>, s': seq<Desc>, t: nat)
    requires t < |s| && |s| > 1 && Own(s[t]) && HandedBack(s, s', t, 1)
    ensures Own(s'[After(t, 1, |s|)]) <==> OwnRun(s, t, |s|) >= 2
  {
    var t' := After(t, 1, |s|);
    WindowShift(t', t, 1, |s|);
    assert !InWindow(t', t', 0, |s|);
    assert OwnRun(s, t, |s|) == 1 + OwnRun(s, t', |s| - 1);
  }
}
