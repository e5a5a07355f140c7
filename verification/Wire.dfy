/** The payload of each message type (sim/systemc/src/protocol.h), and what the receivers make of a
    payload, short and unknown ones included. */
module Wire {
  import opened Bits
  import opened GuestMemory
  import opened Protocol
  import opened DmaPath
  import opened ScBridge
  import F = Framing

  datatype Option<T> = None | Some(value: T)

  const MSG_MMIO_READ: u32 := 0
  const MSG_MMIO_WRITE: u32 := 1
  const MSG_DMA_READ: u32 := 2
  const MSG_DMA_WRITE: u32 := 3
  const MSG_MSI_IRQ: u32 := 4

  // ---- Little-endian fields ----

  function Word(b: seq<u8>): u32
    requires |b| == 4
  {
    UnLeBound(b); Pow256Values();
    UnLe(b)
  }

  function Long(b: seq<u8>): u64
    requires |b| == 8
  {
    UnLeBound(b); Pow256Values();
    UnLe(b)
  }

  lemma WordRoundTrip(x: u32)
    ensures Word(Le(x, 4)) == x
  {
    Pow256Values();
    LeRoundTrip(x, 4);
  }

  lemma LongRoundTrip(x: u64)
    ensures Long(Le(x, 8)) == x
  {
    Pow256Values();
    LeRoundTrip(x, 8);
  }

  // ---- Towards QEMU ----

  /** The message's fields fit their places on the wire. */
  predicate QemuFits(m: ToQemu) {
    match m
    case DmaRead(addr, _) => addr < TWO64
    case DmaWrite(addr, data) => addr < TWO64 && |data| + 12 < TWO32
    case _ => true
  }

  function EncodeToQemu(m: ToQemu): F.Message
    requires QemuFits(m)
  {
    match m
    case ReadResp(value, status) => F.Message(MSG_MMIO_READ, Le(value, 4) + Le(status, 4))
    case WriteAck => F.Message(MSG_MMIO_WRITE, Le(SC_STATUS_OK, 4))
    case DmaRead(addr, len) => F.Message(MSG_DMA_READ, Le(addr, 8) + Le(len, 4))
    case DmaWrite(addr, data) => F.Message(MSG_DMA_WRITE, Le(addr, 8) + Le(|data|, 4) + data)
    case Msi(vector) => F.Message(MSG_MSI_IRQ, Le(vector, 4))
  }

  /** sc_bridge_handle_msg's reading of a message: short payloads and unknown types are ignored. */
  function DecodeToQemu(m: F.Message): Option<ToQemu> {
    var p := m.payload;
    if m.kind == MSG_MMIO_READ then
      if |p| < 8 then None else Some(ReadResp(Word(p[..4]), Word(p[4..8])))
    else if m.kind == MSG_MMIO_WRITE then Some(WriteAck)
    else if m.kind == MSG_DMA_READ then
      if |p| < 12 then None else Some(DmaRead(Long(p[..8]), Word(p[8..12])))
    else if m.kind == MSG_DMA_WRITE then
      if |p| < 12 then None
      else
        // the data a sender's own length field announces is there; at most 4096 bytes of it are used
        var n := Min(Min(Word(p[8..12]), DMA_MAX_BUF), |p| - 12);
        Some(DmaWrite(Long(p[..8]), p[12..12 + n]))
    else if m.kind == MSG_MSI_IRQ then
      if |p| < 4 then None else Some(Msi(Word(p[..4])))
    else None
  }

  /** What is left of a message after the 4096-byte clamp. */
  function Clamped(m: ToQemu): ToQemu {
    if m.DmaWrite? then DmaWrite(m.addr, m.data[..Min(|m.data|, DMA_MAX_BUF)]) else m
  }

  /** QEMU reads back every message the NIC sends, DMA writes up to the clamp. */
  lemma ToQemuRoundTrip(m: ToQemu)
    requires QemuFits(m)
    ensures DecodeToQemu(EncodeToQemu(m)) == Some(Clamped(m))
    ensures EncodeToQemu(m).kind == if m.ReadResp? then 0 else if m.WriteAck? then 1 else if m.DmaRead? then 2
                                    else if m.DmaWrite? then 3 else 4
  {
    var p := EncodeToQemu(m).payload;
    match m
    case ReadResp(value, status) =>
      assert p[..4] == Le(value, 4) && p[4..8] == Le(status, 4);
      WordRoundTrip(value);
      WordRoundTrip(status);
    case WriteAck =>
    case DmaRead(addr, len) =>
      assert p[..8] == Le(addr, 8) && p[8..12] == Le(len, 4);
      LongRoundTrip(addr);
      WordRoundTrip(len);
    case DmaWrite(addr, data) =>
      assert p[..8] == Le(addr, 8) && p[8..12] == Le(|data|, 4) && p[12..] == data;
      LongRoundTrip(addr);
      WordRoundTrip(|data|);
      assert p[12..12 + Min(|data|, DMA_MAX_BUF)] == data[..Min(|data|, DMA_MAX_BUF)];
    case Msi(vector) =>
      assert p[..4] == Le(vector, 4);
      WordRoundTrip(vector);
  }

  /** The clamp on the way changes nothing: the handler clamps too. */
  lemma ClampIsHarmless(mem: Memory, m: ToQemu)
    ensures MemoryAfter(mem, Clamped(m)) == MemoryAfter(mem, m) && ReplyTo(mem, Clamped(m)) == ReplyTo(mem, m)
  {
    if m.DmaWrite? {
      var d := m.data[..Min(|m.data|, DMA_MAX_BUF)];
      assert d[..Min(|d|, DMA_MAX_BUF)] == d;
    }
  }

  // ---- Towards the NIC ----

  predicate NicFits(m: ToSc) {
    match m
    case ReadReq(addr) => addr < TWO64
    case WriteReq(addr, _) => addr < TWO64
    case DmaData(bytes) => |bytes| + 4 < TWO32
    case DmaAck => true
  }

  function EncodeToSc(m: ToSc): F.Message
    requires NicFits(m)
  {
    match m
    case ReadReq(addr) => F.Message(MSG_MMIO_READ, Le(addr, 8))
    case WriteReq(addr, word) => F.Message(MSG_MMIO_WRITE, Le(addr, 8) + Le(word, 4))
    case DmaData(bytes) => F.Message(MSG_DMA_READ, Le(SC_STATUS_OK, 4) + bytes)
    case DmaAck => F.Message(MSG_DMA_WRITE, Le(SC_STATUS_OK, 4))
  }

  /** handle_message's reading of a message. */
  function DecodeToSc(m: F.Message): Option<ToSc> {
    var p := m.payload;
    if m.kind == MSG_MMIO_READ && |p| >= 8 then Some(ReadReq(Long(p[..8])))
    else if m.kind == MSG_MMIO_WRITE && |p| >= 12 then Some(WriteReq(Long(p[..8]), Word(p[8..12])))
    else if m.kind == MSG_DMA_READ && |p| >= 4 then Some(DmaData(p[4..]))
    else if m.kind == MSG_DMA_WRITE then Some(DmaAck)
    else None
  }

  /** The NIC reads back every message QEMU sends. */
  lemma ToScRoundTrip(m: ToSc)
    requires NicFits(m)
    ensures DecodeToSc(EncodeToSc(m)) == Some(m)
    ensures EncodeToSc(m).kind == if m.ReadReq? then 0 else if m.WriteReq? then 1 else if m.DmaData? then 2 else 3
  {
    var p := EncodeToSc(m).payload;
    match m
    case ReadReq(addr) =>
      assert p[..8] == Le(addr, 8);
      LongRoundTrip(addr);
    case WriteReq(addr, word) =>
      assert p[..8] == Le(addr, 8) && p[8..12] == Le(word, 4);
      LongRoundTrip(addr);
      WordRoundTrip(word);
    case DmaData(bytes) => assert p[4..] == bytes;
    case DmaAck =>
  }

  // ---- Whole streams ----

  function EncodeStream(ms: seq<ToQemu>): seq<F.Message>
    requires forall i :: 0 <= i < |ms| ==> QemuFits(ms[i])
  {
    if |ms| == 0 then [] else [EncodeToQemu(ms[0])] + EncodeStream(ms[1..])
  }

  /** The messages handled, ignored ones left out. */
  function DecodeStream(ms: seq<F.Message>): seq<ToQemu> {
    if |ms| == 0 then [] else
    (if DecodeToQemu(ms[0]).Some? then [DecodeToQemu(ms[0]).value] else []) + DecodeStream(ms[1..])
  }

  function ClampedAll(ms: seq<ToQemu>): seq<ToQemu> {
    if |ms| == 0 then [] else [Clamped(ms[0])] + ClampedAll(ms[1..])
  }

  lemma {:induction false} DecodeEncoded(ms: seq<ToQemu>)
    requires forall i :: 0 <= i < |ms| ==> QemuFits(ms[i])
    ensures DecodeStream(EncodeStream(ms)) == ClampedAll(ms)
  {
    if |ms| > 0 {
      ToQemuRoundTrip(ms[0]);
      DecodeEncoded(ms[1..]);
      assert EncodeStream(ms)[1..] == EncodeStream(ms[1..]);
    }
  }

  /** From typed messages through bytes and back: what QEMU handles is what the NIC sent, in order. */
  lemma StreamRoundTrip(ms: seq<ToQemu>)
    requires forall i :: 0 <= i < |ms| ==> QemuFits(ms[i])
    ensures DecodeStream(F.Parse(F.EncodeAll(EncodeStream(ms)))) == ClampedAll(ms)
  {
    F.ParseAll(EncodeStream(ms));
    DecodeEncoded(ms);
  }

  /** sc_bridge_handle_msg on a payload: an ignored message changes nothing. */
  method HandlePayload(bridge: ScBridgeState, m: F.Message)
    requires bridge.Valid()
    modifies bridge`mmio_pending, bridge`mmio_resp_data, bridge`mmio_resp_status
    modifies bridge`sent, bridge`mem, bridge`notified
    ensures match DecodeToQemu(m)
            case None =>
              && bridge.mmio_pending == old(bridge.mmio_pending) && bridge.mmio_resp_data == old(bridge.mmio_resp_data)
              && bridge.mmio_resp_status == old(bridge.mmio_resp_status) && bridge.sent == old(bridge.sent)
              && bridge.mem == old(bridge.mem) && bridge.notified == old(bridge.notified)
            case Some(msg) =>
              && bridge.mmio_pending == (old(bridge.mmio_pending) && !msg.ReadResp?)
              && bridge.mmio_resp_data == (if msg.ReadResp? then msg.value else old(bridge.mmio_resp_data))
              && bridge.mmio_resp_status == (if msg.ReadResp? then msg.status else old(bridge.mmio_resp_status))
              && bridge.sent == old(bridge.sent) + ReplyTo(old(bridge.mem), msg)
              && bridge.mem == MemoryAfter(old(bridge.mem), msg)
              && bridge.notified == old(bridge.notified) + if msg.Msi? then [msg.vector] else []
  {
    match DecodeToQemu(m)
    case None =>
    case Some(msg) => bridge.HandleMessage(msg);
  }
}
