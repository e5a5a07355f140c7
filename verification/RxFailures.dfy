/** Receive delivery when DMA accesses may fail: a frame can be dropped, but the ring never skips a slot,
    moves its tail for a dropped frame, or mixes frames up. */
module RxFailures {
  import opened Bits
  import opened GuestMemory
  import opened Protocol
  import opened DmaPath
  import opened Rings
  import opened RingMemory
  import opened RxDelivery

  /** The same ring and memory with no failures to come. */
  function Strip(x: Rx): Rx { x.(port := Port(x.port.mem, [])) }

  /** Will one of the next three accesses fail? */
  predicate FailsSoon(p: Port) { Fails(p) || Fails(Tick(p)) || Fails(Tick(Tick(p))) }

  /** A frame that is delivered has the effect it has without failures. */
  lemma DeliveredIs(x: Rx, f: Frame)
    requires Delivers(x)
    ensures Strip(Deliver(x, f)) == Deliver(Strip(x), f) && Delivers(Strip(x))
  {
    assert SlotRead(Strip(x).port, x.ring) == SlotRead(x.port, x.ring);
    assert Tick(Strip(x).port) == Strip(x).port;
  }

  /** A frame that is not delivered leaves the ring registers alone; at most part of it is in the buffer
      of the tail slot. */
  lemma DroppedIs(x: Rx, f: Frame)
    requires WellFormed(x.ring) && !Delivers(x)
    ensures var x', d := Deliver(x, f), SlotsOf(x)[x.ring.tail];
            && x'.ring == x.ring
            && (x'.port.mem == x.port.mem
                || (Own(d) && FailsSoon(x.port) && x'.port.mem == Stored(x.port.mem, d.addr, f[..Copied(f, d.length)])))
  {
    TailSlot(x.port, x.ring);
  }

  /** The frames among the first k that are delivered. */
  function Taken(x: Rx, fs: seq<Frame>, k: nat): seq<Frame>
    requires k <= |fs|
  {
    if k == 0 then []
    else Taken(x, fs, k - 1) + if Delivers(DeliverFirst(x, fs, k - 1)) then [fs[k - 1]] else []
  }

  /** Is a in one of the first k buffers? */
  predicate InBuffers(a: nat, bufs: seq<u64>, cap: u32, k: nat) {
    exists i :: 0 <= i < k && i < |bufs| && bufs[i] <= a < bufs[i] + cap
  }

  /** No byte outside the ring and the buffers up to the tail's has changed. */
  ghost predicate RestSame(m: Memory, m': Memory, base: nat, size: nat, bufs: seq<u64>, cap: u32, k: nat) {
    forall a: nat {:trigger Load(m', a)} ::
      !InRange(a, base, size) && !InBuffers(a, bufs, cap, k + 1) ==> Load(m', a) == Load(m, a)
  }

  /** x' has exactly the taken frames, one to a slot from the first on, and the other slots still to fill. */
  ghost predicate Landed(x: Rx, x': Rx, bufs: seq<u64>, cap: u32, taken: seq<Frame>)
    requires |bufs| == x.ring.size > 0
  {
    && |taken| <= |bufs| && x'.ring == x.ring.(tail := |taken| % |bufs|)
    && SlotsFilled(SlotsOf(x'), bufs, cap, taken, |taken|)
    && BuffersFilled(x'.port.mem, bufs, cap, taken, |taken|)
    && RestSame(x.port.mem, x'.port.mem, x.ring.base, x.ring.size, bufs, cap, |taken|)
  }

  /** With a slot left, a frame is dropped exactly when one of its accesses fails; with none left, always. */
  lemma DropExact(x: Rx, x1: Rx, bufs: seq<u64>, cap: u32, taken: seq<Frame>)
    requires Prepared(Strip(x), bufs, cap) && Landed(x, x1, bufs, cap, taken)
    ensures Delivers(x1) <==> |taken| < |bufs| && !FailsSoon(x1.port)
  {
    WrapMod(|taken|, |bufs|);
    var tail := x1.ring.tail;
    TailSlot(x1.port, x1.ring);
    assert SlotsOf(x1)[tail] == SlotAt(x1.port.mem, x1.ring.base, tail);
    assert Own(SlotsOf(x1)[tail]) <==> |taken| < |bufs|;
  }

  lemma SameFrames(s: seq<Desc>, m: Memory, bufs: seq<u64>, cap: u32, fs: seq<Frame>, f: Frame)
    requires |s| == |bufs| && |fs| <= |bufs|
    requires SlotsFilled(s, bufs, cap, fs, |fs|) && BuffersFilled(m, bufs, cap, fs, |fs|)
    ensures SlotsFilled(s, bufs, cap, fs + [f], |fs|) && BuffersFilled(m, bufs, cap, fs + [f], |fs|)
  {
    var more := fs + [f];
    forall i | 0 <= i < |fs| ensures Fetch(m, bufs[i], Copied(more[i], cap)) == more[i][..Copied(more[i], cap)] {
      assert more[i] == fs[i];
    }
  }

  lemma RestAfterWrite(m: Memory, m1: Memory, m': Memory, base: nat, size: nat,
                       bufs: seq<u64>, cap: u32, k: nat, data: seq<u8>)
    requires k < |bufs| && |data| <= cap && RestSame(m, m1, base, size, bufs, cap, k)
    requires Wrote(m1, m', base, size, bufs[k], data)
    ensures RestSame(m, m', base, size, bufs, cap, k) && RestSame(m, m', base, size, bufs, cap, k + 1)
  {
    var n, n' := k + 1, k + 2;
    forall a: nat | !InBuffers(a, bufs, cap, n') ensures !InBuffers(a, bufs, cap, n) {
    }
    forall a: nat | !InBuffers(a, bufs, cap, n) ensures !(bufs[k] <= a < bufs[k] + |data|) {
    }
  }

  /** A delivered frame goes into the next slot and its buffer. */
  lemma TakenSlot(x: Rx, x1: Rx, bufs: seq<u64>, cap: u32, taken: seq<Frame>, f: Frame)
    requires Prepared(Strip(x), bufs, cap) && Landed(x, x1, bufs, cap, taken) && Delivers(x1) && |taken| < |bufs|
    ensures var k, x' := |taken|, Deliver(x1, f);
            && x'.ring == x.ring.(tail := (k + 1) % |bufs|)
            && SlotsOf(x') == SlotsOf(x1)[k := Received(bufs[k], cap, f)]
            && Wrote(x1.port.mem, x'.port.mem, x.ring.base, x.ring.size, bufs[k], f[..Copied(f, cap)])
  {
    var k := |taken|;
    DeliveredIs(x1, f);
    WrapMod(k, |bufs|);
    NextSlotTaken(Strip(x), Strip(x1), Desc(bufs[k], cap, DESC_OWN), k, f);
  }

  lemma SlotsTaken(s: seq<Desc>, bufs: seq<u64>, cap: u32, fs: seq<Frame>, k: nat)
    requires |s| == |bufs| && k < |bufs| && k < |fs| && SlotsFilled(s, bufs, cap, fs, k)
    ensures SlotsFilled(s[k := Received(bufs[k], cap, fs[k])], bufs, cap, fs, k + 1)
  {
  }

  lemma BuffersTaken(m: Memory, m': Memory, base: nat, size: nat, bufs: seq<u64>, cap: u32, taken: seq<Frame>, f: Frame)
    requires |taken| < |bufs| && BuffersFilled(m, bufs, cap, taken + [f], |taken|)
    requires OffRing(base, size, bufs, cap) && Apart(bufs, cap)
    requires Wrote(m, m', base, size, bufs[|taken|], f[..Copied(f, cap)])
    ensures BuffersFilled(m', bufs, cap, taken + [f], |taken| + 1)
  {
    assert (taken + [f])[|taken|] == f;
    BuffersOneMore(m, m', base, size, bufs, cap, taken + [f], |taken|);
  }

  /** A delivered frame lands in the next slot. */
  lemma LandedTakes(x: Rx, x1: Rx, bufs: seq<u64>, cap: u32, taken: seq<Frame>, f: Frame)
    requires Prepared(Strip(x), bufs, cap) && Landed(x, x1, bufs, cap, taken) && Delivers(x1)
    ensures Landed(x, Deliver(x1, f), bufs, cap, taken + [f])
  {
    var k, m1, m' := |taken|, x1.port.mem, Deliver(x1, f).port.mem;
    DropExact(x, x1, bufs, cap, taken);
    TakenSlot(x, x1, bufs, cap, taken, f);
    SameFrames(SlotsOf(x1), m1, bufs, cap, taken, f);
    SlotsTaken(SlotsOf(x1), bufs, cap, taken + [f], k);
    BuffersTaken(m1, m', x.ring.base, x.ring.size, bufs, cap, taken, f);
    RestAfterWrite(x.port.mem, m1, m', x.ring.base, x.ring.size, bufs, cap, k, f[..Copied(f, cap)]);
  }

  lemma BuffersKept(m: Memory, bufs: seq<u64>, cap: u32, taken: seq<Frame>, data: seq<u8>)
    requires |taken| < |bufs| && |data| <= cap && Apart(bufs, cap) && BuffersFilled(m, bufs, cap, taken, |taken|)
    ensures BuffersFilled(Store(m, bufs[|taken|], data), bufs, cap, taken, |taken|)
  {
    forall i | 0 <= i < |taken|
      ensures Fetch(Store(m, bufs[|taken|], data), bufs[i], Copied(taken[i], cap)) == taken[i][..Copied(taken[i], cap)]
    {
      assert Disjoint(bufs[i], cap, bufs[|taken|], cap);
      FetchElsewhere(m, bufs[|taken|], data, bufs[i], Copied(taken[i], cap));
    }
  }

  /** A partial write into the tail slot's buffer disturbs nothing that has landed. */
  lemma LandedDrops(x: Rx, x1: Rx, bufs: seq<u64>, cap: u32, taken: seq<Frame>, f: Frame)
    requires Prepared(Strip(x), bufs, cap) && Landed(x, x1, bufs, cap, taken) && !Delivers(x1)
    ensures Landed(x, Deliver(x1, f), bufs, cap, taken)
  {
    var k, x' := |taken|, Deliver(x1, f);
    WrapMod(k, |bufs|);
    DroppedIs(x1, f);
    if x'.port.mem != x1.port.mem {
      var data := f[..Copied(f, cap)];
      assert SlotsOf(x1)[x1.ring.tail] == Desc(bufs[k], cap, DESC_OWN);
      assert data[..Min(|data|, DMA_MAX_BUF)] == data;
      SlotsUntouched(x1.port.mem, x.ring.base, x.ring.size, bufs[k], data);
      BuffersKept(x1.port.mem, bufs, cap, taken, data);
      RestAfterWrite(x.port.mem, x1.port.mem, x'.port.mem, x.ring.base, x.ring.size, bufs, cap, k, data);
    }
  }

  lemma LandedNext(x: Rx, x1: Rx, bufs: seq<u64>, cap: u32, taken: seq<Frame>, f: Frame)
    requires Prepared(Strip(x), bufs, cap) && Landed(x, x1, bufs, cap, taken)
    ensures Landed(x, Deliver(x1, f), bufs, cap, taken + if Delivers(x1) then [f] else [])
  {
    if Delivers(x1) {
      LandedTakes(x, x1, bufs, cap, taken, f);
    } else {
      LandedDrops(x, x1, bufs, cap, taken, f);
      assert taken + [] == taken;
    }
  }

  /** For any frames into a prepared ring and any pattern of failing accesses: the frames that were not
      dropped are in the slots one after another, none skipped, each in its buffer, and the tail is their
      number; nothing outside the ring and the buffers used has changed. */
  lemma {:induction false} FailuresOnlyDrop(x: Rx, bufs: seq<u64>, cap: u32, fs: seq<Frame>, k: nat)
    requires Prepared(Strip(x), bufs, cap) && k <= |fs|
    ensures Landed(x, DeliverFirst(x, fs, k), bufs, cap, Taken(x, fs, k))
  {
    if k == 0 {
      WrapMod(0, |bufs|);
    } else {
      FailuresOnlyDrop(x, bufs, cap, fs, k - 1);
      LandedNext(x, DeliverFirst(x, fs, k - 1), bufs, cap, Taken(x, fs, k - 1), fs[k - 1]);
    }
  }
}
