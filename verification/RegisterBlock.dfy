/** sim/systemc/src/reg_block.cpp: the NIC's register file. */
module RegisterBlock {
  import opened Bits
  import opened Protocol

  type Mac = s: seq<u8> | |s| == 6 witness [0, 0, 0, 0, 0, 0]

  datatype RegState = RegState(regs: Regs, mac: Mac)

  const DEFAULT_MAC: Mac := [0x52, 0x54, 0x00, 0x12, 0x34, 0x56]

  function Initial(): RegState { RegState(StoreMac(ZeroRegs(), DEFAULT_MAC), DEFAULT_MAC) }

  function Get(regs: Regs, addr: int): u32
    requires 0 <= addr < SC_REG_COUNT
  {
    regs[addr / 4]
  }

  function Set(regs: Regs, addr: int, val: u32): Regs
    requires 0 <= addr < SC_REG_COUNT
  {
    regs[addr / 4 := val]
  }

  function MacLo(mac: Mac): u32 {
    mac[0] as int + 0x100 * mac[1] as int + 0x1_0000 * mac[2] as int + 0x100_0000 * mac[3] as int
  }

  function MacHi(mac: Mac): u32 { mac[4] as int + 0x100 * mac[5] as int }

  function StoreMac(regs: Regs, mac: Mac): Regs {
    Set(Set(regs, SC_REG_MAC_LO, MacLo(mac)), SC_REG_MAC_HI, MacHi(mac))
  }

  function MacBytes(lo: u32, hi: u32): Mac {
    [lo % 0x100, lo / 0x100 % 0x100, lo / 0x1_0000 % 0x100, lo / 0x100_0000 % 0x100,
     hi % 0x100, hi / 0x100 % 0x100]
  }

  function LoadMac(regs: Regs): Mac {
    MacBytes(Get(regs, SC_REG_MAC_LO), Get(regs, SC_REG_MAC_HI))
  }

  function Read(regs: Regs, addr: nat): u32 {
    if addr >= SC_REG_COUNT then 0
    else if addr == SC_REG_DEV_ID then SC_DEV_ID
    else if addr == SC_REG_STATUS then SC_STATUS_READY
    else Get(regs, addr)
  }

  function Write(st: RegState, addr: nat, val: u32): RegState {
    if addr >= SC_REG_COUNT then st
    else if addr == SC_REG_CTRL then
      if Bit(val, CTRL_RESET_BIT) then RegState(StoreMac(ZeroRegs(), st.mac), st.mac)
      else RegState(Set(st.regs, addr, val), st.mac)
    else if addr == SC_REG_IRQ_STS then
      RegState(Set(st.regs, addr, AndNot32(Get(st.regs, addr), val)), st.mac)
    else if addr == SC_REG_IRQ_TEST then
      if val != 0 then RegState(RaiseIrq(st.regs, SC_IRQ_TEST), st.mac) else st
    else if addr == SC_REG_STATUS || addr == SC_REG_DEV_ID then st
    else RegState(Set(st.regs, addr, val), st.mac)
  }

  /** Does the write report a changed interrupt state? */
  predicate IrqChanged(addr: nat, val: u32) {
    addr == SC_REG_IRQ_STS || (addr == SC_REG_IRQ_TEST && val != 0)
  }

  function RaiseIrq(regs: Regs, bits: u32): Regs {
    Set(regs, SC_REG_IRQ_STS, Or32(Get(regs, SC_REG_IRQ_STS), bits))
  }

  /** The MAC registers hold the address they were given. */
  lemma MacRoundTrip(regs: Regs, mac: Mac)
    ensures LoadMac(StoreMac(regs, mac)) == mac
  {
    var lo, hi := MacLo(mac), MacHi(mac);
    var a: int := mac[1] as int + 0x100 * mac[2] as int + 0x1_0000 * mac[3] as int;
    var b: int := mac[2] as int + 0x100 * mac[3] as int;
    assert lo == mac[0] as int + 0x100 * a && a == mac[1] as int + 0x100 * b;
    assert lo / 0x100 == a && lo / 0x1_0000 == a / 0x100 == b && lo / 0x100_0000 == b / 0x100 == mac[3];
  }

  /** Whatever was written before, CTRL_RESET gives back the power-on register file. */
  lemma {:induction false} ResetAfterAnyWrites(st: RegState, writes: seq<(nat, u32)>, val: u32)
    requires Bit(val, CTRL_RESET_BIT)
    ensures Write(WriteAll(st, writes), SC_REG_CTRL, val) == RegState(StoreMac(ZeroRegs(), st.mac), st.mac)
    decreases |writes|
  {
    if |writes| > 0 {
      ResetAfterAnyWrites(Write(st, writes[0].0, writes[0].1), writes[1..], val);
    }
  }

  function WriteAll(st: RegState, writes: seq<(nat, u32)>): RegState
    decreases |writes|
  {
    if |writes| == 0 then st else WriteAll(Write(st, writes[0].0, writes[0].1), writes[1..])
  }

  /** Write-1-to-clear: exactly the written bits go, and no other register moves. */
  lemma WriteOneToClear(st: RegState, val: u32, k: nat)
    ensures var regs := Write(st, SC_REG_IRQ_STS, val).regs;
            && (Bit(Get(regs, SC_REG_IRQ_STS), k) <==> Bit(Get(st.regs, SC_REG_IRQ_STS), k) && !Bit(val, k))
            && forall i :: 0 <= i < REG_WORDS && i != SC_REG_IRQ_STS / 4 ==> regs[i] == st.regs[i]
  {
    BitAndNot(Get(st.regs, SC_REG_IRQ_STS), val, k);
  }

  class RegBlock {
    const m_regs: array<u32>
    const m_mac: array<u8>
    var m_last_delay_ns: nat

    ghost predicate Valid()
      reads this
    {
      m_regs.Length == REG_WORDS && m_mac.Length == 6 && m_regs as object != m_mac as object
    }

    ghost function View(): RegState
      requires Valid()
      reads this, m_regs, m_mac
    {
      RegState(m_regs[..], m_mac[..])
    }

    constructor ()
      ensures Valid() && fresh(m_regs) && fresh(m_mac)
      ensures View() == Initial()
    {
      m_regs := new u32[REG_WORDS](_ => 0);
      m_mac := new u8[6](i requires 0 <= i < 6 => DEFAULT_MAC[i]);
      m_last_delay_ns := 10;
      new;
      assert m_mac[..] == DEFAULT_MAC;
      assert m_regs[..] == ZeroRegs();
      ApplyMac();
    }

    /** set_mac on the stored address. */
    method ApplyMac()
      requires Valid()
      modifies m_regs
      ensures m_regs[..] == StoreMac(old(m_regs[..]), m_mac[..])
    {
      m_regs[SC_REG_MAC_LO / 4] := MacLo(m_mac[..]);
      m_regs[SC_REG_MAC_HI / 4] := MacHi(m_mac[..]);
    }

    method Reset()
      requires Valid()
      modifies m_regs
      ensures m_regs[..] == ZeroRegs()
    {
      forall i | 0 <= i < m_regs.Length { m_regs[i] := 0; }
      m_regs[SC_REG_DMA_STS / 4] := 0;
    }

    method MmioRead(addr: nat) returns (val: u32)
      requires Valid()
      modifies this`m_last_delay_ns
      ensures val == Read(m_regs[..], addr)
    {
      m_last_delay_ns := 10;
      if addr >= SC_REG_COUNT { return 0; }
      if addr == SC_REG_DEV_ID {
        val := SC_DEV_ID;
      } else if addr == SC_REG_STATUS {
        val := SC_STATUS_READY;
      } else {
        val := m_regs[addr / 4];
      }
    }

    method MmioWrite(addr: nat, val: u32) returns (irq_changed: bool)
      requires Valid()
      modifies this`m_last_delay_ns, m_regs
      ensures View() == Write(old(View()), addr, val)
      ensures irq_changed == IrqChanged(addr, val)
    {
      m_last_delay_ns := 10;
      irq_changed := false;
      if addr >= SC_REG_COUNT { return; }
      if addr == SC_REG_CTRL {
        if Bit(val, CTRL_RESET_BIT) {
          Reset();
          ApplyMac();
          m_regs[SC_REG_IRQ_STS / 4] := 0;
        } else {
          m_regs[SC_REG_CTRL / 4] := val;
        }
      } else if addr == SC_REG_IRQ_STS {
        m_regs[SC_REG_IRQ_STS / 4] := AndNot32(m_regs[SC_REG_IRQ_STS / 4], val);
        irq_changed := true;
      } else if addr == SC_REG_IRQ_TEST {
        if val != 0 {
          m_regs[SC_REG_IRQ_STS / 4] := Or32(m_regs[SC_REG_IRQ_STS / 4], SC_IRQ_TEST);
          irq_changed := true;
        }
      } else if addr != SC_REG_STATUS && addr != SC_REG_DEV_ID {
        m_regs[addr / 4] := val;
      }
    }
  }
}
