/** One pass of the transmit loop over the message channel, with nobody else about: its reads and its write, served one
    after another, do what Rings.Pass says in one step. */
module TxChannelPass {
  import opened Bits
  import opened GuestMemory
  import opened Protocol
  import opened DmaPath
  import opened Rings
  import opened ScBridge
  import opened TxChannel
  import D = DmaPairing

  /** The streams are empty and the transmit process is between DMA accesses. */
  predicate Quiet(s: State) { s.ch.thread.Idle? && s.ch.toQemu == [] && s.ch.toSc == [] }

  /** QEMU serves the one message there is, and the socket thread handles the reply. */
  function Served(s: State): State
    requires |s.ch.toQemu| == 1 && s.ch.toSc == [] && (s.ch.toQemu[0].DmaRead? || s.ch.toQemu[0].DmaWrite?)
  {
    Do(Do(s, QemuServes), SocketThread)
  }

  lemma ReadServed(s: State, addr: nat, n: u32)
    requires s.ch.toQemu == [DmaRead(addr, n)] && s.ch.toSc == []
    ensures var t := Served(s);
            && !t.ch.pending && t.ch.resp == ServeRead(s.ch.mem, addr, n) && t.ch.toQemu == [] && t.ch.toSc == []
            && t == s.(ch := s.ch.(pending := false, resp := t.ch.resp, toQemu := [], served := t.ch.served))
  {
  }

  lemma WriteServed(s: State, addr: nat, data: seq<u8>)
    requires s.ch.toQemu == [DmaWrite(addr, data)] && s.ch.toSc == []
    ensures var t := Served(s);
            && t.ch.mem == Stored(s.ch.mem, addr, data) && t.ch.toQemu == [] && t.ch.toSc == []
            && t == s.(ch := s.ch.(pending := false, mem := t.ch.mem, toQemu := [], served := t.ch.served))
  {
  }

  lemma CopiedOut(m: Memory, addr: nat, n: u32)
    ensures D.CopyOut(ServeRead(m, addr, n), Zeros(n)) == Filled(m, addr, Zeros(n))
  {
  }

  /** The steps of a pass up to the descriptor. */
  function GotDesc(s: State, at: u64): State
    requires Quiet(s) && s.phase.Ready? && s.doorbell > 0
  {
    ReadServed(Do(s, NextPass(at)), at, DESC_BYTES);
    Do(Served(Do(s, NextPass(at))), DescArrives)
  }

  lemma GotDescIs(s: State, at: u64)
    requires Quiet(s) && s.phase.Ready? && s.doorbell > 0
    ensures var d, t := DecodeDesc(Filled(s.ch.mem, at, Zeros(DESC_BYTES))), GotDesc(s, at);
            && t.ch.mem == s.ch.mem && t.wire == s.wire && t.doorbell == s.doorbell && t.ch.toSc == []
            && if Own(d) then
                 && t.phase == AwaitData(at, d) && t.ch.toQemu == [DmaRead(d.addr, d.length)]
                 && t.ch.thread == D.Waiting(d.addr, Zeros(d.length))
               else t.phase == LoopEnded && Quiet(t)
  {
    ReadServed(Do(s, NextPass(at)), at, DESC_BYTES);
    CopiedOut(s.ch.mem, at, DESC_BYTES);
  }

  /** The rest of a pass that has found a descriptor with OWN. */
  function Finished(s: State): State
    requires s.phase.AwaitData? && s.ch.toSc == [] && s.ch.toQemu == [DmaRead(s.phase.desc.addr, s.phase.desc.length)]
    requires s.ch.thread == D.Waiting(s.phase.desc.addr, Zeros(s.phase.desc.length))
  {
    ReadServed(s, s.phase.desc.addr, s.phase.desc.length);
    Served(Do(Served(s), DataArrives))
  }

  lemma FinishedIs(s: State)
    requires s.phase.AwaitData? && s.ch.toSc == [] && s.ch.toQemu == [DmaRead(s.phase.desc.addr, s.phase.desc.length)]
    requires s.ch.thread == D.Waiting(s.phase.desc.addr, Zeros(s.phase.desc.length)) && s.doorbell > 0
    ensures var d, t := s.phase.desc, Finished(s);
            && Quiet(t) && t.phase == Ready && t.doorbell == s.doorbell - 1
            && t.wire == s.wire + [Filled(s.ch.mem, d.addr, Zeros(d.length))]
            && t.ch.mem == Stored(s.ch.mem, s.phase.at, EncodeDesc(Completed(d)))
  {
    var d, t1 := s.phase.desc, Served(s);
    ReadServed(s, d.addr, d.length);
    CopiedOut(s.ch.mem, d.addr, d.length);
    var t2 := Do(t1, DataArrives);
    assert t2.ch.toQemu == [DmaWrite(s.phase.at, EncodeDesc(Completed(d)))];
    WriteServed(t2, s.phase.at, EncodeDesc(Completed(d)));
  }

  /** The steps of one pass, in a row. */
  function WholePass(s: State, at: u64): State
    requires Quiet(s) && s.phase.Ready?
  {
    if s.doorbell == 0 then Do(s, NextPass(at)) else
    GotDescIs(s, at);
    var t := GotDesc(s, at);
    if t.phase.AwaitData? then Finished(t) else t
  }

  /** A pass over the channel leaves wire, doorbell and guest memory as the one-step pass does, and goes round again
      just when that does. */
  lemma ChannelPass(s: State, x: Tx)
    requires Quiet(s) && s.phase.Ready?
    requires x == Tx(x.ring, s.doorbell, Port(s.ch.mem, []), s.wire, true) && x.ring.size > 0 && x.ring.base > 0
    ensures var t, x' := WholePass(s, SlotAddr(x.ring)), Pass(x);
            && t.wire == x'.wire && t.doorbell == x'.doorbell && t.ch.mem == x'.port.mem
            && (t.phase.Ready? <==> Advances(x)) && (t.phase.LoopEnded? <==> !Advances(x))
  {
    if s.doorbell > 0 {
      var t := GotDesc(s, SlotAddr(x.ring));
      GotDescIs(s, SlotAddr(x.ring));
      if t.phase.AwaitData? { FinishedIs(t); }
    }
  }
}
