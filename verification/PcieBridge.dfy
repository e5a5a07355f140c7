/** sim/systemc/src/pcie_bridge.cpp: message handling in the socket thread and the two halves of
    dma_read around its wait. How these run against other threads is in MmioProtocol and DmaPairing. */
module PcieBridge {
  import opened Bits
  import opened GuestMemory
  import opened Protocol
  import opened RegisterBlock
  import opened SmartNic
  import opened ScBridge
  import opened DmaPairing

  class SocketEnd {
    const nic: Device
    var m_dma_pending: bool
    var m_dma_resp: seq<u8>
    var sent: seq<ToQemu>

    constructor (nic: Device)
      ensures this.nic == nic && !m_dma_pending && m_dma_resp == [] && sent == []
    {
      this.nic := nic;
      m_dma_pending, m_dma_resp, sent := false, [], [];
    }

    /** handle_message: MMIO requests go to the NIC and are answered; DMA replies lower the flag, and
        only a read reply touches the buffer. */
    method HandleMessage(msg: ToSc)
      requires nic.Valid()
      modifies this, nic, nic.m_regs, nic.m_regs.m_regs, nic.m_dma
      ensures nic.Valid()
      ensures nic.View() == if msg.WriteReq? then SmartNic.MmioWrite(old(nic.View()), msg.addr, msg.word)
                            else old(nic.View())
      ensures sent == old(sent) + (match msg
                                   case ReadReq(a) => [ReadResp(MmioRead(old(nic.View()), a), SC_STATUS_OK)]
                                   case WriteReq(a, w) => (if IrqChanged(a, w) then [Msi(0)] else []) + [WriteAck]
                                   case _ => [])
      ensures m_dma_pending == (old(m_dma_pending) && IsMmio(msg))
      ensures m_dma_resp == if msg.DmaData? then msg.bytes else old(m_dma_resp)
    {
      match msg
      case ReadReq(addr) =>
        var val := nic.OnMmioRead(addr);
        sent := sent + [ReadResp(val, SC_STATUS_OK)];
      case WriteReq(addr, data) =>
        var before := |nic.irqs|;
        nic.OnMmioWrite(addr, data);
        if |nic.irqs| > before { sent := sent + [Msi(nic.irqs[before])]; }
        sent := sent + [WriteAck];
      case DmaData(bytes) =>
        m_dma_resp := bytes;
        m_dma_pending := false;
      case DmaAck =>
        m_dma_pending := false;
    }

    /** dma_read up to the wait: flag up, buffer cleared, request sent. */
    method BeginRead(addr: nat, len: u32)
      modifies this`m_dma_pending, this`m_dma_resp, this`sent
      ensures m_dma_pending && m_dma_resp == [] && sent == old(sent) + [ToQemu.DmaRead(addr, len)]
    {
      m_dma_pending := true;
      m_dma_resp := [];
      sent := sent + [ToQemu.DmaRead(addr, len)];
    }

    /** dma_read after a wait that did not time out: at most |buf| bytes of whatever is in the buffer. */
    method FinishRead(buf: array<u8>)
      requires !m_dma_pending
      modifies buf
      ensures buf[..] == CopyOut(m_dma_resp, old(buf[..]))
    {
      if |m_dma_resp| > 0 {
        var n := if |m_dma_resp| < buf.Length then |m_dma_resp| else buf.Length;
        forall i | 0 <= i < n { buf[i] := m_dma_resp[i]; }
        assert buf[..] == m_dma_resp[..n] + old(buf[..])[n..];
      } else {
        assert CopyOut(m_dma_resp, old(buf[..])) == old(buf[..]);
      }
    }
  }
}
