/** One DMA access of the NIC to guest memory: PcieBridge::dma_read / dma_write answered by the QEMU
    bridge, which serves at most 4096 bytes of each request. */
module DmaPath {
  import opened Bits
  import opened GuestMemory
  import opened Protocol

  /** Guest memory, and for each coming access whether the bridge reports it as failed
      (an exhausted list means no further failures). */
  datatype Port = Port(mem: Memory, faults: seq<bool>)

  predicate Fails(p: Port) { |p.faults| > 0 && p.faults[0] }

  function Tick(p: Port): Port {
    if |p.faults| > 0 then p.(faults := p.faults[1..]) else p
  }

  /** What reaches buf: the served bytes, then whatever buf held before. */
  function Filled(mem: Memory, addr: nat, buf: seq<u8>): (r: seq<u8>)
    ensures |r| == |buf|
  {
    var n := Min(|buf|, DMA_MAX_BUF);
    Fetch(mem, addr, n) + buf[n..]
  }

  function ReadInto(p: Port, addr: nat, buf: seq<u8>): (r: seq<u8>)
    ensures |r| == |buf|
  {
    if Fails(p) then buf else Filled(p.mem, addr, buf)
  }

  function Stored(mem: Memory, addr: nat, data: seq<u8>): Memory {
    Store(mem, addr, data[..Min(|data|, DMA_MAX_BUF)])
  }

  function WriteFrom(p: Port, addr: nat, data: seq<u8>): Port {
    if Fails(p) then Tick(p) else Port(Stored(p.mem, addr, data), Tick(p).faults)
  }

  function Zeros(n: nat): (s: seq<u8>)
    ensures |s| == n
  {
    seq<u8>(n, _ => 0)
  }

  /** A DMA read brings back exactly the guest's bytes, for every memory, just when it fits one request. */
  lemma ReadIsExact(addr: nat, n: nat)
    ensures (forall mem: Memory :: Filled(mem, addr, Zeros(n)) == Fetch(mem, addr, n)) <==> n <= 4096
  {
    if n <= DMA_MAX_BUF {
      forall mem: Memory ensures Filled(mem, addr, Zeros(n)) == Fetch(mem, addr, n) {
      }
    } else {
      var mem: Memory := map[addr + DMA_MAX_BUF := 1];
      assert Filled(mem, addr, Zeros(n))[DMA_MAX_BUF] == 0;
      assert Fetch(mem, addr, n)[DMA_MAX_BUF] == 1;
      assert Filled(mem, addr, Zeros(n)) != Fetch(mem, addr, n);
    }
  }

  /** A DMA write puts exactly its data into every memory just when it fits one request; no byte is touched but
      those of the request. */
  lemma WriteIsExact(addr: nat, data: seq<u8>)
    ensures (forall mem: Memory :: Fetch(Stored(mem, addr, data), addr, |data|) == data) <==> |data| <= 4096
    ensures forall mem: Memory, a: nat {:trigger Load(Stored(mem, addr, data), a)} ::
              !(addr <= a < addr + Min(|data|, 4096)) ==> Load(Stored(mem, addr, data), a) == Load(mem, a)
  {
    if |data| <= DMA_MAX_BUF {
      assert data[..|data|] == data;
      forall mem: Memory ensures Fetch(Stored(mem, addr, data), addr, |data|) == data {
        FetchStored(mem, addr, data);
      }
    } else {
      var other: u8 := if data[DMA_MAX_BUF] == 1 then 2 else 1;
      var mem: Memory := map[addr + DMA_MAX_BUF := other];
      assert Fetch(Stored(mem, addr, data), addr, |data|)[DMA_MAX_BUF] == other;
      assert Fetch(Stored(mem, addr, data), addr, |data|) != data;
    }
  }

  class Bridge {
    var mem: Memory
    var faults: seq<bool>

    ghost function View(): Port
      reads this
    {
      Port(mem, faults)
    }

    constructor (mem: Memory, faults: seq<bool>)
      ensures View() == Port(mem, faults)
    {
      this.mem := mem;
      this.faults := faults;
    }

    method DmaRead(addr: nat, buf: seq<u8>) returns (ok: bool, filled: seq<u8>)
      modifies this`faults
      ensures ok == !Fails(old(View())) && View() == Tick(old(View()))
      ensures filled == ReadInto(old(View()), addr, buf) && |filled| == |buf|
    {
      ok := !(|faults| > 0 && faults[0]);
      faults := if |faults| > 0 then faults[1..] else faults;
      filled := if ok then Filled(mem, addr, buf) else buf;
    }

    method DmaWrite(addr: nat, data: seq<u8>) returns (ok: bool)
      modifies this
      ensures ok == !Fails(old(View())) && View() == WriteFrom(old(View()), addr, data)
    {
      ok := !(|faults| > 0 && faults[0]);
      faults := if |faults| > 0 then faults[1..] else faults;
      if ok { mem := Stored(mem, addr, data); }
    }
  }
}
