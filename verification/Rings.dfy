/** Descriptor-ring bookkeeping of sim/systemc/src/nic.cpp: the part of process_tx and on_packet_rx
    that depends only on ring configuration, guest memory and the transmit log. */
module Rings {
  import opened Bits
  import opened GuestMemory
  import opened Protocol
  import opened DmaPath

  type Frame = seq<u8>

  datatype Ring = Ring(base: u64, size: u32, tail: u32)

  function SlotAddr(r: Ring): u64 { (r.base + r.tail * DESC_BYTES) % TWO64 }

  function NextTail(r: Ring): u32
    requires r.size > 0
  {
    (r.tail + 1) % TWO32 % r.size
  }

  /** The descriptor a DMA read of the tail slot brings back. */
  function SlotRead(p: Port, r: Ring): Desc { DecodeDesc(ReadInto(p, SlotAddr(r), Zeros(DESC_BYTES))) }

  function FrameRead(p: Port, d: Desc): Frame { ReadInto(p, d.addr, Zeros(d.length)) }

  // ---- TX ----

  /** What process_tx works on. */
  datatype Tx = Tx(ring: Ring, doorbell: u32, port: Port, wire: seq<Frame>, pending: bool)

  predicate Configured(x: Tx) { x.ring.size != 0 && x.doorbell != 0 && x.ring.base != 0 }

  /** Does this pass of the inner loop complete a descriptor, so that the loop goes round again? */
  predicate Advances(x: Tx) {
    && x.pending && Configured(x)
    && !Fails(x.port) && Own(SlotRead(x.port, x.ring))
    && !Fails(Tick(x.port)) && !Fails(Tick(Tick(x.port)))
  }

  /** Packet read, transmission and write-back for descriptor d of the tail slot. */
  function Send(x: Tx, d: Desc): Tx
    requires x.ring.size != 0 && x.doorbell != 0
  {
    var p := x.port;
    if Fails(p) then x.(port := Tick(p)) else
    var sent := x.(port := WriteFrom(Tick(p), SlotAddr(x.ring), EncodeDesc(Completed(d))),
                   wire := x.wire + [FrameRead(p, d)]);
    if Fails(Tick(p)) then sent
    else sent.(ring := x.ring.(tail := NextTail(x.ring)), doorbell := x.doorbell - 1)
  }

  /** One pass of the inner loop of process_tx. */
  function Pass(x: Tx): Tx {
    if !x.pending then x
    else if !Configured(x) then x.(pending := false)
    else if Fails(x.port) then x.(port := Tick(x.port))
    else if !Own(SlotRead(x.port, x.ring)) then x.(port := Tick(x.port), pending := false)
    else Send(x.(port := Tick(x.port)), SlotRead(x.port, x.ring))
  }

  /** The inner loop, run without interruption. */
  function Drain(x: Tx): Tx
    decreases x.doorbell
  {
    if Advances(x) then Drain(Pass(x)) else Pass(x)
  }

  // ---- RX ----

  datatype Rx = Rx(ring: Ring, port: Port)

  predicate Delivers(x: Rx) {
    && x.ring.size != 0 && x.ring.base != 0
    && !Fails(x.port) && Own(SlotRead(x.port, x.ring))
    && !Fails(Tick(x.port)) && !Fails(Tick(Tick(x.port)))
  }

  /** Copying a frame into descriptor d's buffer and writing the descriptor back. */
  function Fill(x: Rx, d: Desc, f: Frame): Rx
    requires x.ring.size != 0
  {
    var p := x.port;
    var copied := Min(|f|, d.length);
    var p2 := WriteFrom(p, d.addr, f[..copied]);
    if Fails(p) then x.(port := p2) else
    var done := x.(port := WriteFrom(p2, SlotAddr(x.ring), EncodeDesc(Completed(d).(length := copied))));
    if Fails(Tick(p)) then done else done.(ring := x.ring.(tail := NextTail(x.ring)))
  }

  /** An accepted frame meets the ring. */
  function Deliver(x: Rx, f: Frame): Rx {
    if x.ring.size == 0 || x.ring.base == 0 then x
    else if Fails(x.port) || !Own(SlotRead(x.port, x.ring)) then x.(port := Tick(x.port))
    else Fill(x.(port := Tick(x.port)), SlotRead(x.port, x.ring), f)
  }
}
