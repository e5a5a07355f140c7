/** Messages on the byte streams between QEMU and the NIC: an 8-byte header (type, payload length) and
    the payload, over sockets that may split any transfer anywhere. */
module Framing {
  import opened Bits
  import opened Protocol
  import opened Sequences

  type Payload = s: seq<u8> | |s| < 0x1_0000_0000 witness []

  datatype Message = Message(kind: u32, payload: Payload)

  const HEADER := 8

  function Encode(m: Message): (b: seq<u8>)
    ensures |b| == HEADER + |m.payload|
  {
    Le(m.kind, 4) + Le(|m.payload|, 4) + m.payload
  }

  function EncodeAll(ms: seq<Message>): seq<u8> {
    if |ms| == 0 then [] else Encode(ms[0]) + EncodeAll(ms[1..])
  }

  function Kind(header: seq<u8>): u32
    requires |header| == HEADER
  {
    UnLeBound(header[..4]); Pow256Values();
    UnLe(header[..4])
  }

  function Length(header: seq<u8>): u32
    requires |header| == HEADER
  {
    UnLeBound(header[4..]); Pow256Values();
    UnLe(header[4..])
  }

  /** A header and its whole payload are there. */
  predicate Ready(b: seq<u8>) { |b| >= HEADER && |b| >= HEADER + Length(b[..HEADER]) }

  function First(b: seq<u8>): Message
    requires Ready(b)
  {
    Message(Kind(b[..HEADER]), b[HEADER..HEADER + Length(b[..HEADER])])
  }

  function Rest(b: seq<u8>): seq<u8>
    requires Ready(b)
  {
    b[HEADER + Length(b[..HEADER])..]
  }

  /** The messages that are complete at the front of a byte string. */
  function Parse(b: seq<u8>): seq<Message>
    decreases |b|
  {
    if Ready(b) then [First(b)] + Parse(Rest(b)) else []
  }

  /** How many of the messages lie wholly within the first k bytes. */
  function Complete(ms: seq<Message>, k: nat): (n: nat)
    ensures n <= |ms|
  {
    if |ms| == 0 || k < HEADER + |ms[0].payload| then 0
    else 1 + Complete(ms[1..], k - HEADER - |ms[0].payload|)
  }

  lemma HeaderOf(m: Message, rest: seq<u8>)
    ensures var b := Encode(m) + rest;
            && Kind(b[..HEADER]) == m.kind && Length(b[..HEADER]) == |m.payload|
            && b[HEADER..HEADER + |m.payload|] == m.payload && b[HEADER + |m.payload|..] == rest
  {
    var b := Encode(m) + rest;
    var h := b[..HEADER];
    assert h[..4] == Le(m.kind, 4) && h[4..] == Le(|m.payload|, 4);
    Pow256Values();
    LeRoundTrip(m.kind, 4);
    LeRoundTrip(|m.payload|, 4);
  }

  /** Byte by byte: the type, the payload's length, each with its lowest byte first, and the payload. */
  lemma HeaderLayout(m: Message, k: nat)
    requires k < 8 + |m.payload|
    ensures Encode(m)[k] == if k < 4 then m.kind / Pow256(k) % 256
                            else if k < 8 then |m.payload| / Pow256(k - 4) % 256
                            else m.payload[k - 8]
  {
    if k < 4 {
      LeByte(m.kind, 4, k);
    } else if k < 8 {
      LeByte(|m.payload|, 4, k - 4);
    }
  }

  lemma ShortHeader(m: Message, rest: seq<u8>, k: nat)
    requires HEADER <= k < HEADER + |m.payload|
    ensures var b := (Encode(m) + rest)[..k]; Length(b[..HEADER]) == |m.payload|
  {
    var whole := Encode(m) + rest;
    HeaderOf(m, rest);
    assert whole[..k][..HEADER] == whole[..HEADER];
  }

  lemma ParseFirst(m: Message, rest: seq<u8>)
    ensures Parse(Encode(m) + rest) == [m] + Parse(rest)
  {
    HeaderOf(m, rest);
  }

  /** Cutting a stream of messages after k bytes leaves exactly the messages that were complete by then. */
  lemma {:induction false} ParsePrefix(ms: seq<Message>, k: nat)
    requires k <= |EncodeAll(ms)|
    ensures Parse(EncodeAll(ms)[..k]) == ms[..Complete(ms, k)]
  {
    if |ms| > 0 {
      var m, rest := ms[0], EncodeAll(ms[1..]);
      var n := HEADER + |m.payload|;
      if k < n {
        if k >= HEADER { ShortHeader(m, rest, k); }
      } else {
        assert EncodeAll(ms)[..k] == Encode(m) + rest[..k - n];
        ParseFirst(m, rest[..k - n]);
        ParsePrefix(ms[1..], k - n);
        assert ms[..Complete(ms, k)] == [m] + ms[1..][..Complete(ms[1..], k - n)];
      }
    }
  }

  lemma {:induction false} AllComplete(ms: seq<Message>)
    ensures Complete(ms, |EncodeAll(ms)|) == |ms|
  {
    if |ms| > 0 { AllComplete(ms[1..]); }
  }

  /** The receiver recovers the sender's list, with nothing left over. */
  lemma ParseAll(ms: seq<Message>)
    ensures Parse(EncodeAll(ms)) == ms
  {
    ParsePrefix(ms, |EncodeAll(ms)|);
    AllComplete(ms);
    assert EncodeAll(ms)[..|EncodeAll(ms)|] == EncodeAll(ms);
  }

  // ---- Sending ----

  /** A socket whose i-th write takes at most sizes(i) bytes; taking none is an error. */
  class Outgoing {
    const sizes: nat -> nat
    var turn: nat
    var written: seq<u8>

    constructor (sizes: nat -> nat)
      ensures this.sizes == sizes && turn == 0 && written == []
    {
      this.sizes := sizes;
      turn, written := 0, [];
    }

    method Write(data: array<u8>, from: nat, len: nat) returns (n: nat)
      requires from + len <= data.Length
      modifies this
      ensures n <= len && written == old(written) + data[from..from + n]
      ensures n == Min(len, sizes(old(turn))) && turn == old(turn) + 1
    {
      n := if sizes(turn) < len then sizes(turn) else len;
      written := written + data[from..from + n];
      turn := turn + 1;
    }

    /** send_all: keeps writing until everything is out or a write fails. */
    method SendAll(data: array<u8>) returns (ok: bool)
      modifies this
      ensures ok ==> written == old(written) + data[..]
      ensures !ok ==> exists k :: 0 <= k < data.Length && written == old(written) + data[..k]
      ensures (forall i :: sizes(i) > 0) ==> ok
    {
      var p: nat, len: nat := 0, data.Length;
      while len > 0
        invariant p + len == data.Length
        invariant written == old(written) + data[..p]
      {
        var n := Write(data, p, len);
        if n <= 0 {
          assert written == old(written) + data[..p];
          return false;
        }
        assert data[..p] + data[p..p + n] == data[..p + n];
        p, len := p + n, len - n;
      }
      assert data[..p] == data[..];
      ok := true;
    }

    /** make_msg: header and payload copied into one buffer. */
    static method MakeMsg(m: Message) returns (buf: array<u8>)
      ensures fresh(buf) && buf[..] == Encode(m)
    {
      buf := new u8[HEADER + |m.payload|](_ => 0);
      var header := Le(m.kind, 4) + Le(|m.payload|, 4);
      forall i | 0 <= i < HEADER { buf[i] := header[i]; }
      if |m.payload| > 0 {
        forall i | HEADER <= i < buf.Length { buf[i] := m.payload[i - HEADER]; }
      }
      assert buf[..] == header + m.payload;
    }

    method SendMessages(ms: seq<Message>) returns (ok: bool)
      modifies this
      ensures ok ==> written == old(written) + EncodeAll(ms)
      ensures (forall i :: sizes(i) > 0) ==> ok
    {
      var i := 0;
      assert ms[0..] == ms;
      while i < |ms|
        invariant i <= |ms|
        invariant written + EncodeAll(ms[i..]) == old(written) + EncodeAll(ms)
      {
        var buf := MakeMsg(ms[i]);
        ghost var before := written;
        ok := SendAll(buf);
        if !ok { return; }
        assert ms[i..][1..] == ms[i + 1..];
        assert before + (Encode(ms[i]) + EncodeAll(ms[i + 1..])) == written + EncodeAll(ms[i + 1..]);
        i := i + 1;
      }
      ok := true;
    }
  }

  // ---- Receiving ----

  function AtLeastOne(n: nat): nat { if n == 0 then 1 else n }

  /** The number of the read after the ones that fetch n available bytes. */
  function TurnAfter(n: nat, sizes: nat -> nat, turn: nat): nat
    decreases n
  {
    if n == 0 then turn else TurnAfter(n - Min(n, AtLeastOne(sizes(turn))), sizes, turn + 1)
  }

  type Header = s: seq<u8> | |s| == HEADER witness [0, 0, 0, 0, 0, 0, 0, 0]

  /** How much of a header a single read brings. */
  function Got(b: seq<u8>, size: nat): (k: nat)
    ensures k <= HEADER && k <= |b|
  {
    Min(HEADER, Min(AtLeastOne(size), |b|))
  }

  /** The header the SystemC loop acts on: what one read brought, then whatever was in that memory. */
  function ScHeader(b: seq<u8>, size: nat, junk: Header): Header { b[..Got(b, size)] + junk[Got(b, size)..] }

  predicate ScReady(b: seq<u8>, size: nat, junk: Header) {
    |b| > 0 && |b| >= Got(b, size) + Length(ScHeader(b, size, junk))
  }

  function ScFirst(b: seq<u8>, size: nat, junk: Header): Message
    requires ScReady(b, size, junk)
  {
    var h, k := ScHeader(b, size, junk), Got(b, size);
    Message(Kind(h), b[k..k + Length(h)])
  }

  function ScRest(b: seq<u8>, size: nat, junk: Header): seq<u8>
    requires ScReady(b, size, junk)
  {
    b[Got(b, size) + Length(ScHeader(b, size, junk))..]
  }

  lemma PartialHeader(b: seq<u8>, size: nat, junk: Header, h: Header)
    requires var k := Got(b, size); h[0..k] == b[..k] && h[k..] == junk[k..]
    ensures h == ScHeader(b, size, junk)
  {
    assert h == h[0..Got(b, size)] + h[Got(b, size)..];
  }

  lemma JoinSlices(b: seq<u8>, i: nat, j: nat, k: nat)
    requires i <= j <= k <= |b|
    ensures b[i..j] + b[j..k] == b[i..k]
  {
  }

  /** What the SystemC receive loop makes of a stream. */
  function ScParse(b: seq<u8>, sizes: nat -> nat, turn: nat, junk: nat -> Header): seq<Message>
    decreases |b|
  {
    if !ScReady(b, sizes(turn), junk(turn)) then [] else
    var m := ScFirst(b, sizes(turn), junk(turn));
    [m] + ScParse(ScRest(b, sizes(turn), junk(turn)), sizes, TurnAfter(|m.payload|, sizes, turn + 1), junk)
  }

  /** A stream whose i-th read returns at most sizes(i) bytes, but at least one while any are left. */
  class Incoming {
    const bytes: seq<u8>
    const sizes: nat -> nat
    var pos: nat
    var turn: nat

    ghost predicate Valid()
      reads this
    {
      pos <= |bytes|
    }

    ghost function Left(): seq<u8>
      requires Valid()
      reads this
    {
      bytes[pos..]
    }

    constructor (bytes: seq<u8>, sizes: nat -> nat)
      ensures Valid() && this.bytes == bytes && this.sizes == sizes && pos == 0 && turn == 0
    {
      this.bytes, this.sizes := bytes, sizes;
      pos, turn := 0, 0;
    }

    method Read(buf: array<u8>, from: nat, len: nat) returns (n: nat)
      requires Valid() && from + len <= buf.Length
      modifies this, buf
      ensures Valid() && n == Min(len, Min(AtLeastOne(sizes(old(turn))), |old(Left())|))
      ensures pos == old(pos) + n && turn == old(turn) + 1
      ensures buf[from..from + n] == bytes[old(pos)..pos]
      ensures buf[..from] == old(buf[..from]) && buf[from + n..] == old(buf[from + n..])
    {
      var most := if sizes(turn) == 0 then 1 else sizes(turn);
      if |bytes| - pos < most { most := |bytes| - pos; }
      n := if len < most then len else most;
      var data := bytes[pos..pos + n];
      forall i | from <= i < from + n { buf[i] := data[i - from]; }
      assert buf[from..from + n] == data;
      pos, turn := pos + n, turn + 1;
    }

    /** recv_all: fills the buffer, or fails because the stream ends first. */
    method RecvAll(buf: array<u8>) returns (ok: bool)
      requires Valid()
      modifies this, buf
      ensures Valid() && ok == (buf.Length <= |old(Left())|)
      ensures ok ==> buf[..] == old(Left())[..buf.Length] && Left() == old(Left())[buf.Length..]
      ensures ok ==> turn == TurnAfter(buf.Length, sizes, old(turn))
    {
      var p: nat, len: nat := 0, buf.Length;
      while len > 0
        invariant Valid() && p + len == buf.Length && pos == old(pos) + p
        invariant buf[..p] == bytes[old(pos)..pos]
        invariant |old(Left())| >= buf.Length ==> TurnAfter(len, sizes, turn) == TurnAfter(buf.Length, sizes, old(turn))
      {
        ghost var start, done := pos, buf[..p];
        var n := Read(buf, p, len);
        if n <= 0 { return false; }
        assert buf[..p + n] == done + buf[p..p + n];
        JoinSlices(bytes, old(pos), start, pos);
        p, len := p + n, len - n;
      }
      assert buf[..] == buf[..p];
      ok := true;
    }

    /** One turn of the QEMU receive loop: header, then payload. */
    method ReadMessage() returns (ok: bool, msg: Message)
      requires Valid()
      modifies this
      ensures Valid() && ok == Ready(old(Left()))
      ensures ok ==> msg == First(old(Left())) && Left() == Rest(old(Left()))
    {
      msg := Message(0, []);
      var hdr := new u8[HEADER](_ => 0);
      ok := RecvAll(hdr);
      if !ok { return; }
      var h, payload := hdr[..], [];
      ok, payload := ReadPayload(Length(h));
      if !ok { return; }
      msg := Message(Kind(h), payload);
    }

    /** The receive loop of the QEMU I/O thread. */
    method IoLoop() returns (msgs: seq<Message>)
      requires Valid()
      modifies this
      ensures msgs == Parse(old(Left()))
    {
      msgs := [];
      while true
        invariant Valid()
        invariant msgs + Parse(Left()) == Parse(old(Left()))
        decreases |Left()|
      {
        ghost var before := msgs;
        var ok, msg := ReadMessage();
        if !ok { return; }
        Regroup(before, [msg], Parse(Left()));
        msgs := msgs + [msg];
      }
    }

    /** The single read of a header into uninitialised memory, which held junk. */
    method ReadHeader(junk: Header) returns (n: nat, h: Header)
      requires Valid()
      modifies this
      ensures Valid() && n == Got(old(Left()), sizes(old(turn))) && h == ScHeader(old(Left()), sizes(old(turn)), junk)
      ensures Left() == old(Left())[n..] && turn == old(turn) + 1
    {
      var hdr := new u8[HEADER](i requires 0 <= i < HEADER => junk[i]);
      assert hdr[..] == junk;
      n := Read(hdr, 0, HEADER);
      PartialHeader(old(Left()), sizes(old(turn)), junk, hdr[..]);
      h := hdr[..];
    }

    method ReadPayload(len: nat) returns (ok: bool, data: seq<u8>)
      requires Valid()
      modifies this
      ensures Valid() && ok == (len <= |old(Left())|)
      ensures ok ==> && data == old(Left())[..len] && Left() == old(Left())[len..]
                     && turn == TurnAfter(len, sizes, old(turn))
    {
      ok, data := true, [];
      if len > 0 {
        var payload := new u8[len](_ => 0);
        ok := RecvAll(payload);
        data := payload[..];
      }
    }

    /** One turn of the SystemC receive loop. */
    method ReadRequest(junk: Header) returns (ok: bool, msg: Message)
      requires Valid()
      modifies this
      ensures Valid() && ok == ScReady(old(Left()), sizes(old(turn)), junk)
      ensures ok ==> && msg == ScFirst(old(Left()), sizes(old(turn)), junk)
                     && Left() == ScRest(old(Left()), sizes(old(turn)), junk)
                     && turn == TurnAfter(|msg.payload|, sizes, old(turn) + 1)
    {
      msg := Message(0, []);
      var n, hdr := ReadHeader(junk);
      ok := n > 0;
      if !ok { return; }
      var payload;
      ok, payload := ReadPayload(Length(hdr));
      if !ok { return; }
      msg := Message(Kind(hdr), payload);
    }

    /** The receive loop of the SystemC socket thread. */
    method SocketLoop(junk: nat -> Header) returns (msgs: seq<Message>)
      requires Valid()
      modifies this
      ensures msgs == ScParse(old(Left()), sizes, old(turn), junk)
    {
      msgs := [];
      while true
        invariant Valid()
        invariant msgs + ScParse(Left(), sizes, turn, junk) == ScParse(old(Left()), sizes, old(turn), junk)
        decreases |Left()|
      {
        ghost var before := msgs;
        var ok, msg := ReadRequest(junk(turn));
        if !ok { return; }
        msgs := msgs + [msg];
        Regroup(before, [msg], ScParse(Left(), sizes, turn, junk));
      }
    }
  }

  /** Sender, stream and QEMU receiver together: the list arrives, however writes and reads are split. */
  method Transfer(ms: seq<Message>, writes: nat -> nat, splits: nat -> nat) returns (got: seq<Message>)
    requires forall i :: writes(i) > 0
    ensures got == ms
  {
    var sender := new Outgoing(writes);
    var ok := sender.SendMessages(ms);
    assert sender.written == EncodeAll(ms);
    var receiver := new Incoming(sender.written, splits);
    got := receiver.IoLoop();
    ParseAll(ms);
  }

  // ---- When the SystemC loop reads what was sent ----

  /** Every read that starts a message brings the whole header. */
  predicate HeadersWhole(ms: seq<Message>, sizes: nat -> nat, turn: nat) {
    |ms| == 0 || (sizes(turn) >= HEADER && HeadersWhole(ms[1..], sizes, TurnAfter(|ms[0].payload|, sizes, turn + 1)))
  }

  lemma {:induction false} WholeHeadersSuffice(ms: seq<Message>, sizes: nat -> nat, turn: nat, junk: nat -> Header)
    requires HeadersWhole(ms, sizes, turn)
    ensures ScParse(EncodeAll(ms), sizes, turn, junk) == ms
  {
    if |ms| > 0 {
      var b := EncodeAll(ms);
      HeaderOf(ms[0], EncodeAll(ms[1..]));
      assert b[..HEADER] + junk(turn)[HEADER..] == b[..HEADER];
      WholeHeadersSuffice(ms[1..], sizes, TurnAfter(|ms[0].payload|, sizes, turn + 1), junk);
      assert ms == [ms[0]] + ms[1..];
    }
  }

  lemma UnLeInjective(a: seq<u8>, b: seq<u8>)
    requires |a| == |b| && UnLe(a) == UnLe(b)
    ensures a == b
  {
    LeOfUnLe(a);
    LeOfUnLe(b);
  }

  /** Junk whose last byte differs from the true header's gives a different payload length. */
  lemma JunkChangesLength(h: Header, h': Header)
    requires h[7] != h'[7]
    ensures Length(h) != Length(h')
  {
    assert h[4..][3] != h'[4..][3];
    if Length(h) == Length(h') { UnLeInjective(h[4..], h'[4..]); }
  }

  /** A message whose header is cut short can be misread, or lost. */
  lemma {:induction false} ShortHeaderBreaks(ms: seq<Message>, sizes: nat -> nat, turn: nat)
    returns (junk: nat -> Header)
    requires !HeadersWhole(ms, sizes, turn)
    ensures ScParse(EncodeAll(ms), sizes, turn, junk) != ms
  {
    var b := EncodeAll(ms);
    HeaderOf(ms[0], EncodeAll(ms[1..]));
    if sizes(turn) >= HEADER {
      junk := ShortHeaderBreaks(ms[1..], sizes, TurnAfter(|ms[0].payload|, sizes, turn + 1));
      assert ScHeader(b, sizes(turn), junk(turn)) == b[..HEADER];
      assert ScParse(b, sizes, turn, junk)[1..] != ms[1..];
    } else {
      var wrong: Header := b[..HEADER][7 := (b[7] as int + 1) % 256];
      junk := _ => wrong;
      JunkChangesLength(ScHeader(b, sizes(turn), wrong), b[..HEADER]);
    }
  }

  /** The SystemC loop reads every list of messages correctly, whatever its uninitialised header held,
      exactly when no read ever splits a header. */
  lemma ScLoopExact(ms: seq<Message>, sizes: nat -> nat)
    ensures (forall junk :: ScParse(EncodeAll(ms), sizes, 0, junk) == ms) <==> HeadersWhole(ms, sizes, 0)
  {
    if HeadersWhole(ms, sizes, 0) {
      forall junk: nat -> Header ensures ScParse(EncodeAll(ms), sizes, 0, junk) == ms {
        WholeHeadersSuffice(ms, sizes, 0, junk);
      }
    } else {
      var junk := ShortHeaderBreaks(ms, sizes, 0);
    }
  }
}
