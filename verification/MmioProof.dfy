/** Invariants of the MMIO bridge, and that every step of every thread keeps them. */
module MmioProof {
  import opened Bits
  import opened GuestMemory
  import opened Protocol
  import opened DmaPath
  import opened RegisterBlock
  import opened SmartNic
  import opened ScBridge
  import opened MmioProtocol

  // ---- What is in the two streams ----

  function OpsOf(m: ToSc): seq<Access> {
    match m
    case ReadReq(a) => [OpRead(a)]
    case WriteReq(a, w) => [OpWrite(a, w)]
    case _ => []
  }

  /** The guest accesses on their way to the device. */
  function Ops(q: seq<ToSc>): seq<Access> {
    if |q| == 0 then [] else OpsOf(q[0]) + Ops(q[1..])
  }

  function RespOf(m: ToQemu): seq<u32> {
    if m.ReadResp? then [m.value] else []
  }

  /** The read responses on their way back. */
  function Resps(q: seq<ToQemu>): seq<u32> {
    if |q| == 0 then [] else RespOf(q[0]) + Resps(q[1..])
  }

  function IoVal(io: Io): seq<u32> {
    if io.RespLock? || io.RespStore? then [io.val] else []
  }

  function Vals(s: State): seq<u32> { IoVal(s.io) + Resps(s.toQemu) }

  function Reads(ops: seq<Access>): nat {
    if |ops| == 0 then 0 else Reads(ops[..|ops| - 1]) + if ops[|ops| - 1].OpRead? then 1 else 0
  }

  /** The number of read requests and responses that exist anywhere between guest and device. */
  function InTransit(s: State): nat { Reads(Ops(s.toSc)) + |Vals(s)| }

  lemma {:induction false} OpsPush(q: seq<ToSc>, m: ToSc)
    ensures Ops(q + [m]) == Ops(q) + OpsOf(m)
  {
    if |q| == 0 {
      assert (q + [m])[1..] == [];
    } else {
      assert (q + [m])[1..] == q[1..] + [m];
      OpsPush(q[1..], m);
    }
  }

  lemma {:induction false} RespsPush(q: seq<ToQemu>, r: seq<ToQemu>)
    ensures Resps(q + r) == Resps(q) + Resps(r)
  {
    if |q| == 0 {
      assert q + r == r;
    } else {
      assert (q + r)[1..] == q[1..] + r;
      RespsPush(q[1..], r);
    }
  }

  lemma {:induction false} UnpromptedHasNoResps(q: seq<ToQemu>)
    requires Unprompted(q)
    ensures Resps(q) == []
  {
    if |q| > 0 { UnpromptedHasNoResps(q[1..]); }
  }

  lemma {:induction false} ReadsJoin(a: seq<Access>, b: seq<Access>)
    ensures Reads(a + b) == Reads(a) + Reads(b)
  {
    if |b| == 0 {
      assert a + b == a;
    } else {
      assert (a + b)[..|a + b| - 1] == a + b[..|b| - 1];
      ReadsJoin(a, b[..|b| - 1]);
    }
  }

  // ---- Accesses executed one after another ----

  function Execute(n: Nic, op: Access): Nic {
    match op
    case OpRead(_) => n
    case OpWrite(a, w) => MmioWrite(n, a, w)
  }

  function After(n: Nic, ops: seq<Access>): Nic {
    if |ops| == 0 then n else Execute(After(n, ops[..|ops| - 1]), ops[|ops| - 1])
  }

  lemma {:induction false} AfterFirst(n: Nic, op: Access, ops: seq<Access>)
    ensures After(n, [op] + ops) == After(Execute(n, op), ops)
  {
    if |ops| == 0 {
      assert ([op] + ops)[..0] == [];
    } else {
      assert ([op] + ops)[..|ops|] == [op] + ops[..|ops| - 1];
      AfterFirst(n, op, ops[..|ops| - 1]);
    }
  }

  lemma AfterLast(n: Nic, ops: seq<Access>, op: Access)
    ensures After(n, ops + [op]) == Execute(After(n, ops), op)
  {
    assert (ops + [op])[..|ops|] == ops;
  }

  lemma AgreeSwaps(a: Regs, b: Regs)
    requires Agree(a, b)
    ensures Agree(b, a)
  {
  }

  lemma AgreeChains(a: Regs, b: Regs, c: Regs)
    requires Agree(a, b) && Agree(b, c)
    ensures Agree(a, c)
  {
  }

  /** A write moves cache and device alike on the registers the host owns. */
  lemma WriteAgrees(n: Nic, c: Regs, a: nat, w: u32)
    requires Agree(n.rb.regs, c)
    ensures Agree(MmioWrite(n, a, w).rb.regs, CacheWrite(c, a, w))
  {
  }

  /** Host-owned registers after a write do not depend on the others. */
  lemma ExecuteAgrees(n: Nic, n': Nic, op: Access)
    requires Agree(n.rb.regs, n'.rb.regs)
    ensures Agree(Execute(n, op).rb.regs, Execute(n', op).rb.regs)
  {
  }

  lemma {:induction false} AfterAgrees(n: Nic, n': Nic, ops: seq<Access>)
    requires Agree(n.rb.regs, n'.rb.regs)
    ensures Agree(After(n, ops).rb.regs, After(n', ops).rb.regs)
  {
    if |ops| > 0 {
      AfterAgrees(n, n', ops[..|ops| - 1]);
      ExecuteAgrees(After(n, ops[..|ops| - 1]), After(n', ops[..|ops| - 1]), ops[|ops| - 1]);
    }
  }

  /** Writes the bridge does not pass on would have changed nothing. */
  lemma SkippedWritesDoNothing(n: Nic, c: Regs, a: nat, w: u32)
    requires !Forwarded(a)
    ensures MmioWrite(n, a, w) == n && CacheWrite(c, a, w) == c
  {
  }

  lemma LogExtends(n: Nic, log: seq<Item>, item: Item)
    ensures AtomicRun(n, log + [item]) == AtomicStep(AtomicRun(n, log), item)
    ensures Program(log + [item]) == Program(log) + if item.Ran? then [item.op] else []
    ensures AtomicReads(n, log + [item]) == AtomicReads(n, log)
              + if item.Ran? && item.op.OpRead? then [MmioRead(AtomicRun(n, log), item.op.addr)] else []
    ensures AtomicLegal(n, log + [item])
            <==> AtomicLegal(n, log)
                 && (item.Changed? ==> item.before == AtomicRun(n, log) && DeviceUpdate(item.before, item.after))
  {
    assert (log + [item])[..|log|] == log;
  }

  // ---- Invariants ----

  predicate BigLockHeld(g: Guest) {
    g.ReadLock? || g.ReadFlag? || g.ReadSockLock? || g.ReadSend? || g.ReadUnlock? || g.ReadReturn?
    || g.WriteCache? || g.WriteSockLock? || g.WriteSend? || g.WriteReturn?
  }

  predicate LockInv(s: State) {
    && (s.bql == ByGuest <==> BigLockHeld(s.guest))
    && (s.bql == ByIo <==> s.io.DmaReadServe? || s.io.DmaWriteServe? || s.io.MsiNotify?)
    && (s.mmioMtx == ByGuest <==> s.guest.ReadFlag? || s.guest.WaitCheck?)
    && (s.mmioMtx == ByIo <==> s.io.RespStore?)
    && s.mmioMtx != ByMain
    && (s.sockMtx == ByGuest <==> s.guest.ReadSend? || s.guest.WriteSend?)
    && (s.sockMtx == ByIo <==> s.io.ReplySend?)
    && s.sockMtx != ByMain
  }

  predicate Waiting(g: Guest) { g.ReadUnlock? || g.WaitLock? || g.WaitCheck? || g.Asleep? }

  predicate Finishing(g: Guest) { g.ReadRelock? || g.ReadReturn? }

  /** The request is in the stream, behind every earlier write and with nothing behind it. */
  predicate Requested(a: nat, ops: seq<Access>, vals: seq<u32>) {
    vals == [] && |ops| > 0 && ops[|ops| - 1] == OpRead(a) && Reads(ops[..|ops| - 1]) == 0
  }

  predicate ReadInv(g: Guest, pending: bool, ops: seq<Access>, vals: seq<u32>) {
    if Waiting(g) then
      if pending then Requested(g.addr, ops, vals) || (ops == [] && |vals| == 1)
      else ops == [] && vals == [] && !g.Asleep?
    else
      && Reads(ops) == 0 && vals == []
      && (pending <==> g.ReadSockLock? || g.ReadSend?)
      && (Finishing(g) ==> ops == [])
  }

  /** The value the guest's read is going to get, if the device has already produced it. */
  function Answer(g: Guest, pending: bool, resp: u32, vals: seq<u32>): seq<u32> {
    if Waiting(g) && !pending then [resp]
    else if Finishing(g) then [g.val]
    else vals
  }

  predicate AnswerInv(g: Guest, answer: seq<u32>, cache: Regs) {
    answer != [] ==>
      && |answer| == 1 && (Waiting(g) || Finishing(g))
      && (HostOwned(g.addr / 4) ==> answer[0] == cache[g.addr / 4])
  }

  predicate LinInv(s: State, ops: seq<Access>, answer: seq<u32>) {
    && s.nic == AtomicRun(s.start, s.log) && AtomicLegal(s.start, s.log)
    && Program(s.log) + ops == s.issued
    && AtomicReads(s.start, s.log) == s.returned + answer
  }

  /** A write already in the cache but not yet in the stream. */
  function Unsent(g: Guest): seq<Access> {
    if g.WriteSockLock? || g.WriteSend? then [OpWrite(g.addr, g.word)] else []
  }

  predicate CacheInv(s: State, ops: seq<Access>) {
    Agree(After(s.nic, ops + Unsent(s.guest)).rb.regs, s.cache)
  }

  function AnswerOf(s: State): seq<u32> { Answer(s.guest, s.pending, s.respData, Vals(s)) }

  predicate Inv(s: State) {
    && LockInv(s)
    && ReadInv(s.guest, s.pending, Ops(s.toSc), Vals(s))
    && AnswerInv(s.guest, AnswerOf(s), s.cache)
    && LinInv(s, Ops(s.toSc), AnswerOf(s))
    && CacheInv(s, Ops(s.toSc))
  }

  lemma InitialInv(s: State)
    requires MmioProtocol.Initial(s)
    ensures Inv(s)
  {
  }

  // ---- Effect of each thread on the streams ----

  function Sending(g: Guest): seq<Access> {
    match g
    case ReadSend(a) => [OpRead(a)]
    case WriteSend(a, w) => [OpWrite(a, w)]
    case _ => []
  }

  lemma GuestStreams(s: State)
    requires GuestCan(s)
    ensures var t := GuestStep(s);
            Ops(t.toSc) == Ops(s.toSc) + Sending(s.guest) && Vals(t) == Vals(s)
  {
    match s.guest
    case ReadSend(a) => OpsPush(s.toSc, ReadReq(a));
    case WriteSend(a, w) => OpsPush(s.toSc, WriteReq(a, w));
    case _ =>
  }

  lemma IoStreams(s: State)
    requires IoCan(s)
    ensures var t := IoStep(s);
            Ops(t.toSc) == Ops(s.toSc) && Vals(s) == (if s.io.RespStore? then [s.io.val] else []) + Vals(t)
  {
    if s.io.ReplySend? {
      OpsPush(s.toSc, s.io.reply);
    }
  }

  /** The socket thread executes one access and answers it. */
  predicate PeerRan(s: State, t: State, op: Access) {
    && t == s.(toSc := t.toSc, toQemu := t.toQemu, nic := Execute(s.nic, op), log := s.log + [Ran(op)])
    && Vals(t) == Vals(s) + if op.OpRead? then [MmioRead(s.nic, op.addr)] else []
  }

  lemma PeerReads(s: State)
    requires |s.toSc| > 0 && s.toSc[0].ReadReq?
    ensures PeerRan(s, PeerStep(s), OpRead(s.toSc[0].addr))
  {
    RespsPush(s.toQemu, [ReadResp(MmioRead(s.nic, s.toSc[0].addr), SC_STATUS_OK)]);
  }

  lemma PeerWrites(s: State)
    requires |s.toSc| > 0 && s.toSc[0].WriteReq?
    ensures PeerRan(s, PeerStep(s), OpWrite(s.toSc[0].addr, s.toSc[0].word))
  {
    var msi := if IrqChanged(s.toSc[0].addr, s.toSc[0].word) then [Msi(0)] else [];
    RespsPush(s.toQemu, msi);
    RespsPush(s.toQemu + msi, [WriteAck]);
  }

  /** What the socket thread does with the message at the head of the stream. */
  lemma PeerStreams(s: State)
    requires |s.toSc| > 0
    ensures var t, done := PeerStep(s), OpsOf(s.toSc[0]);
            && Ops(s.toSc) == done + Ops(t.toSc)
            && |done| <= 1
            && (|done| == 0 ==> t == s.(toSc := t.toSc))
            && (|done| == 1 ==> PeerRan(s, t, done[0]))
  {
    match s.toSc[0]
    case ReadReq(_) => PeerReads(s);
    case WriteReq(_, _) => PeerWrites(s);
    case _ =>
  }

  // ---- Reads: the request and its answer ----

  function GuestNext(g: Guest, pending: bool, resp: u32): Guest {
    match g
    case Running => g
    case Asleep(_) => g
    case ReadLock(a) => ReadFlag(a)
    case ReadFlag(a) => ReadSockLock(a)
    case ReadSockLock(a) => ReadSend(a)
    case ReadSend(a) => ReadUnlock(a)
    case ReadUnlock(a) => WaitLock(a)
    case WaitLock(a) => WaitCheck(a)
    case WaitCheck(a) => if pending then Asleep(a) else ReadRelock(a, resp)
    case ReadRelock(a, v) => ReadReturn(a, v)
    case ReadReturn(_, _) => Running
    case WriteCache(a, w) => if Forwarded(a) then WriteSockLock(a, w) else WriteReturn
    case WriteSockLock(a, w) => WriteSend(a, w)
    case WriteSend(_, _) => WriteReturn
    case WriteReturn => Running
  }

  function CacheNext(g: Guest, cache: Regs): Regs {
    match g
    case ReadReturn(a, v) => if a < SC_REG_COUNT then Set(cache, a, v) else cache
    case WriteCache(a, w) => CacheWrite(cache, a, w)
    case _ => cache
  }

  /** Everything about a guest step that the invariants other than LockInv speak of. */
  predicate GuestMoves(s: State, t: State) {
    && t.guest == GuestNext(s.guest, s.pending, s.respData)
    && t.pending == (s.pending || s.guest.ReadFlag?)
    && t.cache == CacheNext(s.guest, s.cache)
    && t.returned == s.returned + (if s.guest.ReadReturn? then [s.guest.val] else [])
    && t.issued == s.issued + Sending(s.guest)
    && t.nic == s.nic && t.log == s.log && t.start == s.start && t.respData == s.respData
  }

  lemma GuestParts(s: State)
    requires GuestCan(s)
    ensures GuestMoves(s, GuestStep(s))
  {
  }

  lemma GuestLocks(s: State)
    requires LockInv(s) && GuestCan(s)
    ensures LockInv(GuestStep(s))
  {
  }

  lemma ReadKeptByGuest(g: Guest, pending: bool, resp: u32, ops: seq<Access>, vals: seq<u32>)
    requires ReadInv(g, pending, ops, vals)
    ensures ReadInv(GuestNext(g, pending, resp), pending || g.ReadFlag?, ops + Sending(g), vals)
  {
    if g.ReadSend? || g.WriteSend? {
      SendingKeepsRead(g, pending, resp, ops, vals);
    } else {
      assert ops + Sending(g) == ops;
    }
  }

  lemma SendingKeepsRead(g: Guest, pending: bool, resp: u32, ops: seq<Access>, vals: seq<u32>)
    requires ReadInv(g, pending, ops, vals) && (g.ReadSend? || g.WriteSend?)
    ensures ReadInv(GuestNext(g, pending, resp), pending, ops + Sending(g), vals)
  {
    var next := ops + Sending(g);
    assert next[..|next| - 1] == ops;
  }

  /** The guest's own steps neither lose nor alter the answer; returning hands it over. */
  lemma AnswerMovesWithGuest(g: Guest, pending: bool, resp: u32, ops: seq<Access>, vals: seq<u32>)
    requires ReadInv(g, pending, ops, vals)
    ensures (if g.ReadReturn? then [g.val] else [])
            + Answer(GuestNext(g, pending, resp), pending || g.ReadFlag?, resp, vals)
            == Answer(g, pending, resp, vals)
  {
  }

  lemma AnswerInvKeptByGuest(g: Guest, pending: bool, resp: u32, ops: seq<Access>, vals: seq<u32>, cache: Regs)
    requires ReadInv(g, pending, ops, vals) && AnswerInv(g, Answer(g, pending, resp, vals), cache)
    ensures var g' := GuestNext(g, pending, resp);
            AnswerInv(g', Answer(g', pending || g.ReadFlag?, resp, vals), CacheNext(g, cache))
  {
  }

  lemma UnsentMoves(g: Guest, pending: bool, resp: u32, ops: seq<Access>)
    requires !g.WriteCache? && !g.ReadSend?
    ensures ops + Sending(g) + Unsent(GuestNext(g, pending, resp)) == ops + Unsent(g)
  {
  }

  lemma CacheKept(g: Guest, cache: Regs, regs: Regs)
    requires !g.WriteCache? && Agree(regs, cache)
    requires g.ReadReturn? ==> HostOwned(g.addr / 4) ==> g.val == cache[g.addr / 4]
    ensures Agree(regs, CacheNext(g, cache))
  {
  }

  /** The cache runs ahead of the device by exactly the writes in the stream. */
  lemma CacheKeptByGuest(n: Nic, g: Guest, pending: bool, resp: u32, ops: seq<Access>, cache: Regs)
    requires g.ReadReturn? ==> HostOwned(g.addr / 4) ==> g.val == cache[g.addr / 4]
    requires Agree(After(n, ops + Unsent(g)).rb.regs, cache)
    ensures Agree(After(n, ops + Sending(g) + Unsent(GuestNext(g, pending, resp))).rb.regs, CacheNext(g, cache))
  {
    var next := ops + Sending(g) + Unsent(GuestNext(g, pending, resp));
    if g.WriteCache? {
      assert ops + Unsent(g) == ops;
      assert next == if Forwarded(g.addr) then ops + [OpWrite(g.addr, g.word)] else ops;
      WriteAgrees(After(n, ops), cache, g.addr, g.word);
      AfterLast(n, ops, OpWrite(g.addr, g.word));
      if !Forwarded(g.addr) { SkippedWritesDoNothing(After(n, ops), cache, g.addr, g.word); }
    } else if g.ReadSend? {
      assert ops + Unsent(g) == ops && next == ops + [OpRead(g.addr)];
      AfterLast(n, ops, OpRead(g.addr));
    } else {
      UnsentMoves(g, pending, resp, ops);
      CacheKept(g, cache, After(n, next).rb.regs);
    }
  }

  lemma LinMoves(s: State, t: State, ops: seq<Access>, more: seq<Access>, given: seq<u32>, answer: seq<u32>)
    requires LinInv(s, ops, given + answer)
    requires t.nic == s.nic && t.log == s.log && t.start == s.start
    requires t.issued == s.issued + more && t.returned == s.returned + given
    ensures LinInv(t, ops + more, answer)
  {
    assert Program(s.log) + (ops + more) == Program(s.log) + ops + more;
    assert s.returned + (given + answer) == s.returned + given + answer;
  }

  lemma GuestMovesKeep(s: State, t: State)
    requires Inv(s) && GuestMoves(s, t) && LockInv(t)
    requires Ops(t.toSc) == Ops(s.toSc) + Sending(s.guest) && Vals(t) == Vals(s)
    ensures Inv(t)
  {
    var ops, vals := Ops(s.toSc), Vals(s);
    var given := if s.guest.ReadReturn? then [s.guest.val] else [];
    AnswerMovesWithGuest(s.guest, s.pending, s.respData, ops, vals);
    LinMoves(s, t, ops, Sending(s.guest), given, AnswerOf(t));
    ReadKeptByGuest(s.guest, s.pending, s.respData, ops, vals);
    AnswerInvKeptByGuest(s.guest, s.pending, s.respData, ops, vals, s.cache);
    CacheKeptByGuest(s.nic, s.guest, s.pending, s.respData, ops, s.cache);
  }

  lemma GuestKeeps(s: State)
    requires Inv(s) && GuestCan(s)
    ensures Inv(GuestStep(s))
  {
    GuestStreams(s);
    GuestParts(s);
    GuestLocks(s);
    GuestMovesKeep(s, GuestStep(s));
  }

  // ---- The I/O thread ----

  /** Everything about an I/O step that the invariants other than LockInv speak of. */
  predicate IoMoves(s: State, t: State) {
    && t.guest == (if s.io.RespStore? then Signalled(s.guest) else s.guest)
    && t.pending == (s.pending && !s.io.RespStore?)
    && t.respData == (if s.io.RespStore? then s.io.val else s.respData)
    && t.nic == s.nic && t.log == s.log && t.start == s.start && t.cache == s.cache
    && t.issued == s.issued && t.returned == s.returned
  }

  lemma IoParts(s: State)
    requires IoCan(s)
    ensures IoMoves(s, IoStep(s))
  {
  }

  lemma IoLocks(s: State)
    requires LockInv(s) && IoCan(s)
    ensures LockInv(IoStep(s))
  {
  }

  /** Storing the response turns a value in flight into the value the reader will find. */
  lemma StoredAnswer(g: Guest, pending: bool, resp: u32, ops: seq<Access>, vals: seq<u32>, v: u32, rest: seq<u32>)
    requires ReadInv(g, pending, ops, vals) && vals == [v] + rest
    ensures ReadInv(Signalled(g), false, ops, rest)
    ensures Answer(Signalled(g), false, v, rest) == Answer(g, pending, resp, vals)
    ensures Waiting(g) && pending && Unsent(Signalled(g)) == Unsent(g)
  {
  }

  lemma LinSame(s: State, t: State, ops: seq<Access>, answer: seq<u32>)
    requires LinInv(s, ops, answer) && IoMoves(s, t)
    ensures LinInv(t, ops, answer)
  {
  }

  lemma StoringKeeps(s: State, t: State)
    requires Inv(s) && s.io.RespStore? && LockInv(t) && IoMoves(s, t)
    requires Ops(t.toSc) == Ops(s.toSc) && Vals(s) == [s.io.val] + Vals(t)
    ensures Inv(t)
  {
    StoredAnswer(s.guest, s.pending, s.respData, Ops(s.toSc), Vals(s), s.io.val, Vals(t));
    LinSame(s, t, Ops(s.toSc), AnswerOf(t));
  }

  lemma NotStoringKeeps(s: State, t: State)
    requires Inv(s) && !s.io.RespStore? && LockInv(t) && IoMoves(s, t)
    requires Ops(t.toSc) == Ops(s.toSc) && Vals(t) == Vals(s)
    ensures Inv(t)
  {
    LinSame(s, t, Ops(s.toSc), AnswerOf(t));
  }

  lemma IoKeeps(s: State)
    requires Inv(s) && IoCan(s)
    ensures Inv(IoStep(s))
  {
    IoStreams(s);
    IoParts(s);
    IoLocks(s);
    if s.io.RespStore? { StoringKeeps(s, IoStep(s)); } else { NotStoringKeeps(s, IoStep(s)); }
  }

  // ---- The device side ----

  lemma ReadIsLast(g: Guest, pending: bool, ops: seq<Access>, vals: seq<u32>, op: Access, rest: seq<Access>)
    requires ReadInv(g, pending, ops, vals) && ops == [op] + rest
    ensures op.OpRead? ==> Waiting(g) && pending && op.addr == g.addr && rest == [] && vals == []
    ensures op.OpWrite? ==> ReadInv(g, pending, rest, vals)
  {
    ReadsJoin([op], rest);
    assert [op][..0] == [];
    if Waiting(g) && |rest| > 0 {
      assert ops[..|ops| - 1] == [op] + rest[..|rest| - 1];
      ReadsJoin([op], rest[..|rest| - 1]);
    }
  }

  lemma PeerLin(s: State, t: State, op: Access, rest: seq<Access>)
    requires LinInv(s, [op] + rest, AnswerOf(s))
    requires t.nic == Execute(s.nic, op) && t.log == s.log + [Ran(op)] && t.start == s.start
    requires t.issued == s.issued && t.returned == s.returned
    requires AnswerOf(t) == AnswerOf(s) + if op.OpRead? then [MmioRead(s.nic, op.addr)] else []
    ensures LinInv(t, rest, AnswerOf(t))
  {
    LogExtends(s.start, s.log, Ran(op));
    assert Program(s.log) + ([op] + rest) == Program(s.log) + [op] + rest;
    var v := if op.OpRead? then [MmioRead(s.nic, op.addr)] else [];
    assert s.returned + (AnswerOf(s) + v) == s.returned + AnswerOf(s) + v;
  }

  /** A read reaches the device behind every earlier write, so a host-owned register reads as cached. */
  lemma ReadSeesCache(n: Nic, a: nat, cache: Regs)
    requires Agree(n.rb.regs, cache) && HostOwned(a / 4)
    ensures MmioRead(n, a) == cache[a / 4]
  {
  }

  lemma PeerKeeps(s: State)
    requires Inv(s) && |s.toSc| > 0
    ensures Inv(PeerStep(s))
  {
    var t, done := PeerStep(s), OpsOf(s.toSc[0]);
    PeerStreams(s);
    if |done| == 0 {
      assert Ops(s.toSc) == Ops(t.toSc);
    } else {
      var op := done[0];
      PeerExecutes(s, t, op);
    }
  }

  lemma PeerCache(n: Nic, op: Access, rest: seq<Access>, unsent: seq<Access>, cache: Regs)
    requires Agree(After(n, [op] + rest + unsent).rb.regs, cache)
    ensures Agree(After(Execute(n, op), rest + unsent).rb.regs, cache)
  {
    assert [op] + rest + unsent == [op] + (rest + unsent);
    AfterFirst(n, op, rest + unsent);
  }

  lemma PeerAnswer(n: Nic, g: Guest, op: Access, cache: Regs)
    requires op.OpRead? && Waiting(g) && op.addr == g.addr && Agree(Execute(n, op).rb.regs, cache)
    ensures AnswerInv(g, [MmioRead(n, op.addr)], cache)
  {
    if HostOwned(op.addr / 4) { ReadSeesCache(n, op.addr, cache); }
  }

  lemma PeerExecutes(s: State, t: State, op: Access)
    requires Inv(s) && Ops(s.toSc) == [op] + Ops(t.toSc) && PeerRan(s, t, op)
    ensures Inv(t)
  {
    var rest := Ops(t.toSc);
    ReadIsLast(s.guest, s.pending, Ops(s.toSc), Vals(s), op, rest);
    PeerCache(s.nic, op, rest, Unsent(s.guest), s.cache);
    if op.OpRead? {
      assert rest + Unsent(s.guest) == [];
      PeerAnswer(s.nic, s.guest, op, s.cache);
    }
    PeerLin(s, t, op, rest);
  }

  lemma DeviceLin(s: State, t: State, ops: seq<Access>, answer: seq<u32>)
    requires LinInv(s, ops, answer) && DeviceUpdate(s.nic, t.nic)
    requires t.log == s.log + [Changed(s.nic, t.nic)] && t.start == s.start
    requires t.issued == s.issued && t.returned == s.returned
    ensures LinInv(t, ops, answer)
  {
    LogExtends(s.start, s.log, Changed(s.nic, t.nic));
  }

  lemma DeviceMoves(s: State, t: State)
    requires Inv(s) && DeviceUpdate(s.nic, t.nic) && Vals(t) == Vals(s)
    requires t == s.(nic := t.nic, toQemu := t.toQemu, log := s.log + [Changed(s.nic, t.nic)])
    ensures Inv(t)
  {
    DeviceLin(s, t, Ops(s.toSc), AnswerOf(s));
    var ops := Ops(s.toSc) + Unsent(s.guest);
    AgreeSwaps(s.nic.rb.regs, t.nic.rb.regs);
    AfterAgrees(t.nic, s.nic, ops);
    AgreeChains(After(t.nic, ops).rb.regs, After(s.nic, ops).rb.regs, s.cache);
  }

  lemma DeviceKeeps(s: State, after: Nic, msgs: seq<ToQemu>)
    requires Inv(s) && DeviceUpdate(s.nic, after) && Unprompted(msgs)
    ensures Inv(s.(nic := after, toQemu := s.toQemu + msgs, log := s.log + [Changed(s.nic, after)]))
  {
    var t := s.(nic := after, toQemu := s.toQemu + msgs, log := s.log + [Changed(s.nic, after)]);
    RespsPush(s.toQemu, msgs);
    UnpromptedHasNoResps(msgs);
    assert Vals(t) == Vals(s);
    DeviceMoves(s, t);
  }

  /** Steps that move only the guest's position and the big lock. */
  lemma OnlyGuestMoves(s: State, t: State)
    requires Inv(s) && t == s.(guest := t.guest, bql := t.bql) && LockInv(t)
    requires ReadInv(t.guest, s.pending, Ops(s.toSc), Vals(s))
    requires AnswerOf(t) == AnswerOf(s) && Unsent(t.guest) == Unsent(s.guest)
    requires AnswerInv(t.guest, AnswerOf(t), s.cache)
    ensures Inv(t)
  {
  }

  // ---- Whole runs ----

  lemma StepKeeps(s: State, step: Step)
    requires Inv(s) && Enabled(s, step)
    ensures Inv(Do(s, step))
  {
    match step
    case GuestGo => GuestKeeps(s);
    case IoGo => IoKeeps(s);
    case PeerGo => PeerKeeps(s);
    case DeviceGo(after, msgs) => DeviceKeeps(s, after, msgs);
    case _ => HostKeeps(s, step);
  }

  lemma HostKeeps(s: State, step: Step)
    requires Inv(s) && Enabled(s, step)
    requires step.StartRead? || step.StartWrite? || step.SpuriousWake? || step.MainTake? || step.MainRelease?
    ensures Inv(Do(s, step))
  {
    OnlyGuestMoves(s, Do(s, step));
  }

  lemma {:induction false} RunKeeps(s: State, steps: seq<Step>)
    requires Inv(s) && CanRun(s, steps)
    ensures Inv(Run(s, steps))
    decreases |steps|
  {
    if |steps| > 0 {
      StepKeeps(s, steps[0]);
      RunKeeps(Do(s, steps[0]), steps[1..]);
    }
  }
}
