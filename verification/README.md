# SmartEth: a verified model

SmartEth is a small smart-NIC co-simulation. A guest driver talks to a PCI device in QEMU; in Phase 2
that device does everything itself, in Phase 3 and 4 it is a bridge that forwards register accesses over
a pair of byte streams to a SystemC model, which owns the registers, a DMA engine and two descriptor
rings in guest memory. This project models that machinery in Dafny and proves what its parts promise
each other, over all inputs and over all interleavings.

`dafny verify dfyconfig.toml` checks everything.

## How it is organised

Code that changes fields or arrays step by step is a class whose methods are proved equal to functions
on plain values (`RegBlock`, `Engine`, `Device`, `SmartEth`, `ScBridgeState`, `SocketEnd`, `Adapter`,
`Console`, `Host`, and the two ends of a byte stream). Concurrency is a state machine over the steps of
the threads involved, with history fields that only record what happened.

| files | subject |
|---|---|
| `Bits`, `Sequences`, `GuestMemory`, `Protocol`, `Numerals` | words and bit operators, byte-addressed guest memory, registers and descriptors, numerals |
| `RegisterBlock`, `DmaPath`, `DmaEngine`, `Rings`, `SmartNic` | the SystemC NIC, method by method |
| `Interrupts`, `DmaCopy` | its interrupts and fixed registers in literal bits; guest memory copied through the DMA engine |
| `RingMemory`, `TxDrainSpec`, `TxEndToEnd` | what one uninterrupted transmit drain does; from the driver's doorbell write to the wire |
| `TxProtocol`, `TxProtocolProof`, `TxTheorems`, `TxCredits`, `TxWitnesses` | driver and device on the transmit ring, every interleaving, DMA failures included; doorbell credits; runs that reach each failing case |
| `TxChannel`, `TxChannelProof`, `TxChannelPass` | the transmit process over the message channel: its reads get their own responses; one pass over it |
| `RxDelivery`, `RxFailures`, `Driver` | receive delivery over whole runs, without and with failing accesses; buffer management, probe, posting, interrupt handler |
| `SmartEthPci`, `PhaseEquivalence` | the Phase 2 device, and its bisimulation with Phase 3 |
| `ScBridge`, `PcieBridge`, `MmioProtocol`, `MmioProof`, `MmioTheorems`, `MmioHandlers` | the MMIO bridge: handlers, threads and locks, linearizability, cache, liveness |
| `DmaPairing`, `Framing`, `Wire` | DMA request and response pairing; messages over arbitrarily split streams; payload layouts |
| `IrqStatus` | interrupt status between device and handler |
| `Uart`, `UartDirectives`, `PciConfig` | firmware: `uart_printf`, directive by directive; configuration space and device scan |

## What the proofs found

Where the code does less than one would expect, the model keeps the code as it is, shows an input or a
schedule on which the expectation fails, and proves exactly when it holds.

- `dma_read` can be ended by the acknowledgement of an earlier `dma_write` (or a late response to a
  timed-out read). Exactly when: `DmaPairing.PairingExact`. A read straight after a write is such a case:
  `DmaPairing.ReadAfterWriteIsExposed`. A driver that posts a packet only after it has read TX-done for the
  one before never meets it when transmission is the only user of DMA: `TxChannelProof.NeverExposed`. The
  other ring and DMA-engine results are about DMA accesses that do get their own response.
- `dma_read` is called with the register mutex held, and the socket thread needs that mutex for an MMIO
  request. Exactly when the read can still come back: `DmaPairing.FinishExact`.
- The SystemC side reads a message header with one `read`. Exactly when that is enough:
  `Framing.ScLoopExact`.
- A DMA moves at most 4096 bytes. `DmaPath.ReadIsExact`.
- The driver's doorbell write is always 1 and replaces what is there, so credit can be lost; and a failed
  access ends the drain loop with the credit unused and raises TX-done all the same. A ring at rest has
  left behind exactly one frame for each lost credit, and one more if the last access failed:
  `TxCredits.StrandedExact`. Both cases are reachable: `TxWitnesses.ImpatienceStrandsOne`,
  `TxWitnesses.TxDoneWithoutSending`.
- A doorbell write of 1 sends the packet at the device's tail, which is the one just posted only if nothing was
  left there before: `TxEndToEnd.PostedIsSent`.
- Until it has read them from the device, the QEMU bridge has other MAC register values than the device:
  `ScBridge.CachedMacDiffers`.
- The driver never looks whether its slot is free. Exactly when that costs a frame:
  `TxTheorems.UncheckedPostExact`; it does happen: `TxWitnesses.FullRingReachable`.
- The receive filter decodes the MAC registers in the opposite byte order. `SmartNic.UnicastFilterExact`.
- Phase 2 latches the interrupt-enable bit with the DMA command and Phase 3 looks it up at completion; an
  eight-byte `IRQ_TEST` write with an empty low word raises an interrupt only in Phase 2; reads of
  `DMA_STS` differ while a DMA is pending. `PhaseEquivalence.StepExact`, `PhaseEquivalence.ReadsExact`.
- `uart_printf` checks for room only where a piece of the format starts. It writes past its buffer exactly
  when the first piece to take the text past 255 characters is not a string argument, by at most 19
  characters and the NUL: `Uart.OverrunExact`, `Uart.OverrunBound`, `Uart.LongPieceOverruns`.
- A comment in the bridge's write handler says a reset is not forwarded; the code forwards it
  (`firmware/qemu-dev/smarteth_sc_bridge.c:234-270`), and so does the model.
- A raise of an interrupt bit that the handler is just clearing merges with the one being handled.
  `IrqStatus.RaiseDuringClear`.

## Model

| member | source | states |
|---|---|---|
| Protocol.FlagsAreBits | sim/systemc/src/nic.cpp:325-326 | the arithmetic on flag words used everywhere else is the device's test, clear and set of OWN and DONE, for every word |
| Protocol.CompletedExact | sim/systemc/src/nic.cpp:325-326 | handing back keeps address and length, clears OWN, sets DONE and keeps every other flag bit |
| Protocol.DescRoundTrip | sim/systemc/src/protocol.h:153-157 | a descriptor survives its packed 16-byte little-endian layout |
| Protocol.DescLayout | sim/systemc/src/protocol.h:153-157 | byte for byte: address at 0, length at 8, flags at 12, lowest byte first |
| RegisterBlock.RegBlock.MmioRead | sim/systemc/src/reg_block.cpp:35-51 | reading changes no register |
| RegisterBlock.RegBlock.MmioWrite | sim/systemc/src/reg_block.cpp:53-105 | the whole new register file and the interrupt-changed result |
| RegisterBlock.ResetAfterAnyWrites | sim/systemc/src/reg_block.cpp:64-71 | after any sequence of writes CTRL_RESET gives the same file: all zero but for the MAC |
| RegisterBlock.WriteOneToClear | sim/systemc/src/reg_block.cpp:76-80 | exactly the written bits go, and no other register moves |
| RegisterBlock.MacRoundTrip | sim/systemc/src/reg_block.cpp:12-33 | get_mac after set_mac gives the address back, for every address |
| Interrupts.FixedReads | sim/systemc/src/reg_block.cpp:35-51 | after any writes the identification word and the status read their fixed values, and nothing is read beyond the window |
| Interrupts.ReadsBack | sim/systemc/src/reg_block.cpp:53-105 | a register without a function of its own reads what was last written to it, whatever else is written short of a reset |
| Interrupts.PowerOnMac | sim/systemc/src/reg_block.cpp:8-33 | the two MAC registers at power-on, in digits |
| Interrupts.TestInterrupts | sim/systemc/src/reg_block.cpp:86-91 | a non-zero IRQ_TEST write sets bit 1 and sends vector 0, a zero one does nothing |
| Interrupts.AckInterrupts | sim/systemc/src/nic.cpp:80-105 | an IRQ_STS write takes away the bits written, changes nothing else on the device and sends vector 0 |
| DmaPath.ReadIsExact | firmware/qemu-dev/smarteth_sc_bridge.c:291-318 | a DMA read brings back the guest's bytes for every memory if and only if it is at most 4096 long |
| DmaPath.WriteIsExact | firmware/qemu-dev/smarteth_sc_bridge.c:319-345 | a DMA write puts its data into every memory if and only if it is at most 4096 long, and touches no other byte |
| DmaEngine.Engine.SetUp | sim/systemc/src/dma_engine.cpp:12-21 | the latched command, with the length clamped |
| DmaEngine.Engine.Start | sim/systemc/src/dma_engine.cpp:23-52 | effect of one transfer on buffer and guest memory, and its delay |
| DmaCopy.TransferExact | sim/systemc/src/nic.cpp:86-94 | four register writes and a completion move at most 4096 bytes in the direction of bit 1, put the status word back and, with bit 2, set bit 0 of IRQ_STS and send vector 0 |
| DmaCopy.CopyExact | sim/systemc/src/dma_engine.cpp:23-52 | a transfer in and a transfer out copy guest memory, overlapping ranges included, and change no other byte |
| SmartNic.Device.OnMmioRead | sim/systemc/src/nic.cpp:66-78 | value read, with the busy bit taken from the engine; nothing changes |
| Interrupts.DmaStatusReads | sim/systemc/src/nic.cpp:72-75 | DMA_STS reads as stored but for bit 1, which is whether the engine is busy |
| SmartNic.Device.OnMmioWrite | sim/systemc/src/nic.cpp:80-105 | the whole new device: registers, DMA command, transmit flag and event, interrupt |
| SmartNic.DoorbellWrite | sim/systemc/src/nic.cpp:96-100 | a doorbell write replaces the doorbell, and leaves the transmit side with work unless it writes 0 |
| SmartNic.OtherWritesDoNotWake | sim/systemc/src/nic.cpp:96-100 | no other register gives the transmit side work |
| SmartNic.RingRegisters | sim/systemc/src/nic.cpp:287-291 | which registers hold base, size, tail and doorbell of each ring |
| SmartNic.Device.ProcessDma | sim/systemc/src/nic.cpp:243-275 | one DMA completion on the whole device |
| Interrupts.DmaDoneInterrupts | sim/systemc/src/nic.cpp:264-271 | a completion sets bit 0 of IRQ_STS and sends vector 0 if and only if bit 2 of DMA_CTRL is set by then |
| SmartNic.Device.TransmitNext | sim/systemc/src/nic.cpp:283-336 | one pass of the drain loop, whichever of its three DMA accesses fail |
| SmartNic.Device.DrainTx | sim/systemc/src/nic.cpp:282-339 | the loop terminates and is the recursive drain; only tail and doorbell move among the registers |
| SmartNic.Device.ProcessTx | sim/systemc/src/nic.cpp:277-351 | nothing without the event; with it, the drain and then the TX-done interrupt |
| Interrupts.TxDoneInterrupts | sim/systemc/src/nic.cpp:341-349 | transmission done sets bit 2 of IRQ_STS and sends vector 1 if and only if enabled |
| SmartNic.Device.OnPacketRx | sim/systemc/src/nic.cpp:117-224 | filter, delivery, tail and interrupt for one packet |
| Interrupts.RxDoneInterrupts | sim/systemc/src/nic.cpp:218-223 | a received packet sets bit 3 of IRQ_STS and sends vector 1 if and only if enabled |
| RxDelivery.PacketExact | sim/systemc/src/nic.cpp:151-216 | a packet is put into the tail slot's buffer, its descriptor handed back with the length and the tail moved if and only if it has 14 bytes and is for a group or for the address in the MAC registers, byte by byte; otherwise nothing changes |
| SmartNic.UnicastFilterExact | sim/systemc/src/nic.cpp:151-169 | a unicast frame to the programmed address is accepted if and only if that address reads the same in both byte orders |
| SmartNic.DefaultMacIsFilteredOut | sim/systemc/src/reg_block.cpp:8-9 | a frame to the power-on address is never accepted |
| TxDrainSpec.DrainMeetsSpec | sim/systemc/src/nic.cpp:282-339 | a drain sends exactly min(doorbell, run of OWN slots) frames in ring order, completes exactly those descriptors, moves tail and doorbell by that many and changes no other byte |
| TxDrainSpec.DrainWritesBack | sim/systemc/src/nic.cpp:324-330 | in every drained slot address, length and all flags but OWN and DONE are as the driver left them, OWN is clear and DONE set; every other slot is unchanged |
| TxDrainSpec.DoorbellOfOne | firmware/host-driver/driver/smarteth_main.c:301-302 | after a doorbell of 1 a handed-over slot is left at the tail if and only if two or more were waiting |
| RingMemory.OwnRunExact | sim/systemc/src/nic.cpp:306-310 | the run the drain follows is OWN throughout and ends at a slot without OWN or at the limit |
| TxProtocolProof.StepKeeps | sim/systemc/src/nic.cpp:298-335 | every step of driver, device and guest keeps the ring invariant |
| TxTheorems.FifoExactlyOnce | firmware/host-driver/driver/smarteth_main.c:292-302 | in every interleaving without a failed write-back the wire is a prefix of the posted frames, in order and once each, and the OWN slots are exactly the circular interval of unfinished frames |
| TxTheorems.StutterOnly | sim/systemc/src/nic.cpp:298-335 | with failing accesses the wire never skips or reorders; it repeats only the frame at the tail, once for each failed write-back |
| TxTheorems.NeverHalfFilled | firmware/host-driver/driver/smarteth_main.c:294-297 | a descriptor seen with OWN in any reachable state is the oldest unfinished one, complete, with its bytes in place |
| TxTheorems.PassAllOrNothing | sim/systemc/src/nic.cpp:312-335 | tail, doorbell and ring memory move together or not at all |
| TxTheorems.FineStepsMakePass | sim/systemc/src/nic.cpp:283-336 | the fine steps of the protocol, taken in a row, are the coarse pass that Device.TransmitNext is proved equal to, and the process stays awake exactly when the loop goes round |
| TxEndToEnd.BellIsWrite | sim/systemc/src/nic.cpp:96-100 | the protocol's delivery of a doorbell is that register write on the device, and wakes the process exactly if the value is not 0 |
| TxTheorems.HeadMeetsTail | firmware/host-driver/driver/smarteth_main.c:293-299 | with work outstanding the head slot has OWN if and only if the head has come round to the tail |
| TxTheorems.UncheckedPostExact | firmware/host-driver/driver/smarteth_main.c:293-297 | posting without looking keeps the oldest unfinished frame if and only if the slot had been handed back |
| TxEndToEnd.PostedIsSent | firmware/host-driver/driver/smarteth_main.c:292-302 | a post and the drain its doorbell causes send the packet if the tail is where it was posted, otherwise the older packet at the tail or nothing; the slot sent from is handed back |
| TxEndToEnd.TestTx | firmware/host-driver/driver/smarteth_main.c:271-316 | the transmit test with device turn and handler in its wait: the posted bytes are on the wire exactly if the head was at the tail, the tail read afterwards has moved by what was sent, and TX-done ends the wait |
| TxCredits.CreditKept | sim/systemc/src/nic.cpp:291-335 | every step keeps the credit balance: outstanding frames equal doorbell, writes on their way, writes about to be made and lost credits |
| TxCredits.SleepKept | sim/systemc/src/nic.cpp:280-348 | every step keeps this: the process sleeps with credit in the doorbell exactly when the last DMA access failed |
| TxCredits.StrandedExact | sim/systemc/src/nic.cpp:280-348 | in every run, failing accesses included, a ring at rest has left behind exactly one posted frame for each overwritten credit and one more if the last access failed; everything is sent if and only if neither happened |
| TxCredits.PatientDriverExact | firmware/host-driver/driver/smarteth_main.c:292-305 | a driver that waits for each packet to be handed back overwrites no credit; at rest it has sent everything, once if no write-back failed, if and only if the last access succeeded |
| TxCredits.TxDoneDriverSendsAll | firmware/host-driver/driver/smarteth_main.c:301-305 | a driver that waits for TX-done has sent everything at rest, as long as no access fails |
| TxWitnesses.TxDoneWithoutSending | sim/systemc/src/nic.cpp:301-304 | from every start: one packet, one failed descriptor read, TX-done raised, everything at rest, no credit lost, nothing sent |
| TxWitnesses.ImpatienceStrandsOne | sim/systemc/src/nic.cpp:96-100 | from every start: two packets posted before the first doorbell write arrives, everything at rest, one frame still in the ring |
| TxWitnesses.FullRingReachable | firmware/host-driver/driver/smarteth_main.c:293-297 | from every start a driver that keeps posting reaches a full ring, where one more packet replaces the descriptor of the oldest unsent frame |
| TxWitnesses.PostInOneGo | firmware/host-driver/driver/smarteth_main.c:292-302 | the driver's five fine steps, taken in a row, do what Adapter.PostTx does |
| TxChannelProof.StepKeeps | sim/systemc/src/nic.cpp:277-351 | every step of driver, both streams, I/O thread, socket thread and transmit process keeps the order of write-back, acknowledgement, TX-done and next doorbell |
| TxChannelProof.NeverExposed | firmware/host-driver/driver/smarteth_main.c:292-305 | when the transmit process goes for a descriptor nothing is owed on the channel, and no continuation ends its read with another reply |
| TxChannelProof.DescriptorIsOwn | sim/systemc/src/nic.cpp:298-304 | the descriptor it acts on is the one in guest memory when QEMU served the read |
| TxChannelProof.FrameIsOwn | sim/systemc/src/nic.cpp:312-322 | the frame it transmits is what was in the buffer when QEMU served that read |
| TxChannelProof.WrittenBackBeforePost | firmware/host-driver/driver/smarteth_main.c:304-307 | whenever that driver is free to post, the last write-back is in guest memory |
| TxChannelPass.ChannelPass | sim/systemc/src/nic.cpp:283-336 | a pass over the channel, its messages served in turn, leaves wire, doorbell and guest memory as the one-step pass does |
| RxDelivery.WholeRun | sim/systemc/src/nic.cpp:171-216 | for any frames into a prepared ring: frame k is in buffer k truncated, its descriptor completed with the length, tail is the count modulo the size, the rest is untouched |
| RxDelivery.DropsWhenFull | sim/systemc/src/nic.cpp:191-195 | every later frame leaves ring and memory as they are |
| RxFailures.FailuresOnlyDrop | sim/systemc/src/nic.cpp:182-216 | for any frames and any pattern of failing accesses: the frames not dropped are in the slots one after another, none skipped, the tail is their number, and nothing outside the ring and the buffers used has changed |
| RxFailures.DropExact | sim/systemc/src/nic.cpp:185-212 | a frame is delivered if and only if a slot is left and none of its three accesses fails |
| RxDelivery.DeviceDelivers | sim/systemc/src/nic.cpp:117-224 | the ring of the whole device sees exactly the frames wanted by the filter, written out over the MAC registers |
| RxDelivery.DeviceRun | sim/systemc/src/nic.cpp:117-224 | any packets into a device with a prepared ring leave the first of the wanted ones there, one to a slot, and nothing of the others |
| Driver.Adapter.FillDescriptor | firmware/host-driver/driver/smarteth_main.c:155-159 | the three stores change that one descriptor and nothing else |
| Driver.Adapter.PrepareRxBuffers | firmware/host-driver/driver/smarteth_main.c:135-162 | it fails if and only if the kernel refused a call; the slots before that call are allocated, mapped and handed over, each with its own buffer, and the calls made are exactly those |
| Driver.Adapter.FreeRxBuffers | firmware/host-driver/driver/smarteth_main.c:164-175 | each held buffer is unmapped and then freed, once and in order, nothing else is |
| Driver.Adapter.PrepareAndFree | firmware/host-driver/driver/smarteth_main.c:135-175 | prepare then free leaves nothing behind, and a second free does nothing |
| Driver.Adapter.ConfigureRings | firmware/host-driver/driver/smarteth_main.c:480-498 | the register file after the writes that end probe |
| Driver.ProgrammedRings | firmware/host-driver/driver/smarteth_main.c:480-498 | the device then sees both rings where the driver put them, with 64 slots, all four interrupts enabled and all receive buffers announced |
| Driver.Adapter.ProbeReceive | firmware/host-driver/driver/smarteth_main.c:473-498 | it fails if and only if one of at most 128 kernel calls was refused; otherwise the device is in the state RxDelivery.WholeRun starts from, with buffers of 2048 bytes |
| Driver.Adapter.PostTx | firmware/host-driver/driver/smarteth_main.c:292-302 | one descriptor handed over, head advanced round the ring, doorbell written |
| Driver.Adapter.IrqHandler | firmware/host-driver/driver/smarteth_main.c:179-206 | the whole status is acknowledged, one completion signalled per pending source; nothing happens on an empty status |
| Driver.SignalsCount | firmware/host-driver/driver/smarteth_main.c:193-203 | completions are the number of set bits among the four lowest |
| SmartEthPci.SmartEth.MmioRead | firmware/qemu-dev/smarteth_pci.c:194-217 | the Phase 2 read |
| SmartEthPci.SmartEth.MmioWrite | firmware/qemu-dev/smarteth_pci.c:219-273 | the whole Phase 2 device after a write, and the interrupt signals it sends |
| SmartEthPci.SmartEth.TimerCallback | firmware/qemu-dev/smarteth_pci.c:143-174 | the whole Phase 2 device after a DMA completion, and its interrupt signal by MSI-X, MSI or pin |
| SmartEthPci.WriteSignalsExact | firmware/qemu-dev/smarteth_pci.c:243-262 | a test write signals vector 1, an acknowledgement lowers the pin if and only if it names every pending bit, no other write signals |
| SmartEthPci.TimerSignalsExact | firmware/qemu-dev/smarteth_pci.c:143-174 | a completion signals vector 0 if and only if its command has bits 0 and 2 set |
| SmartEthPci.CommandSpent | firmware/qemu-dev/smarteth_pci.c:143-174 | a completion clears bit 0 of the command word and no other, and the busy word; another one without a new command does nothing |
| PhaseEquivalence.StepExact | firmware/qemu-dev/smarteth_pci.c:124-273 | from coupled states an operation keeps Phase 2 and Phase 3 coupled if and only if it is safe |
| PhaseEquivalence.RunExact | firmware/qemu-dev/smarteth_pci.c:124-273 | they stay coupled throughout a run if and only if every operation in it is safe |
| PhaseEquivalence.SequentialRunsAgree | sim/systemc/src/reg_block.h:7-13 | when each DMA completes before the next write, both end every run with equal registers, interrupt status, buffer and memory, resets included |
| PhaseEquivalence.UnsafeShows | sim/systemc/src/nic.cpp:264-271 | an unsafe write becomes visible in IRQ_STS |
| PhaseEquivalence.ReadsExact | sim/systemc/src/nic.cpp:72-75 | coupled devices answer a read alike if and only if it is not of a set busy bit |
| PhaseEquivalence.BusyReadsDiffer | sim/systemc/src/nic.cpp:86-94 | they differ as soon as a DMA has been started |
| ScBridge.ScBridgeState.MmioWrite | firmware/qemu-dev/smarteth_sc_bridge.c:218-271 | new cache and what is sent |
| ScBridge.CacheExact | firmware/qemu-dev/smarteth_sc_bridge.c:228-265 | the cache after a write, register by register in literal values |
| ScBridge.CachedMacDiffers | firmware/qemu-dev/smarteth_sc_bridge.c:535-540 | until the first read the cached MAC registers are not the device's |
| ScBridge.ScBridgeState.BeginRead | firmware/qemu-dev/smarteth_sc_bridge.c:153-190 | immediate answers, or flag up and request sent |
| ScBridge.ScBridgeState.FinishRead | firmware/qemu-dev/smarteth_sc_bridge.c:199-216 | the answer and the cache update, on both statuses |
| ScBridge.ScBridgeState.HandleMessage | firmware/qemu-dev/smarteth_sc_bridge.c:370-443 | only a read response touches what a reader waits for; DMA served and answered |
| PcieBridge.SocketEnd.HandleMessage | sim/systemc/src/pcie_bridge.cpp:57-150 | MMIO executed on the NIC and answered; any DMA reply lowers the flag, only a read reply fills the buffer |
| PcieBridge.SocketEnd.BeginRead | sim/systemc/src/pcie_bridge.cpp:222-250 | flag up, buffer cleared, request sent |
| PcieBridge.SocketEnd.FinishRead | sim/systemc/src/pcie_bridge.cpp:252-264 | the caller's buffer gets what is in the response buffer, as much as fits, and keeps the rest |
| MmioProof.StepKeeps | firmware/qemu-dev/smarteth_sc_bridge.c:121-391 | every step of guest, I/O thread, socket thread, device and main loop keeps the bridge invariant |
| MmioProof.SkippedWritesDoNothing | firmware/qemu-dev/smarteth_sc_bridge.c:257-260 | the writes that are not forwarded would have changed neither device nor cache |
| MmioProof.WriteAgrees | firmware/qemu-dev/smarteth_sc_bridge.c:232-265 | a write moves cache and RegBlock alike on the registers the host owns |
| MmioTheorems.Linearizable | firmware/qemu-dev/smarteth_sc_bridge.c:153-271 | every run's read results are those of one atomic device executing the guest's accesses in program order with the device's own changes in between; what is not yet executed is the tail of the program |
| MmioTheorems.CacheCoherent | firmware/qemu-dev/smarteth_sc_bridge.c:207-270 | applying the posted writes in order to the device always gives the cached host-owned registers |
| MmioTheorems.ReadReturnsCached | firmware/qemu-dev/smarteth_sc_bridge.c:212-215 | a forwarded read of such a register returns the cached value and its cache update changes nothing |
| MmioTheorems.OwnProcessesAreUpdates | sim/systemc/src/nic.cpp:117-351 | DMA completion, each pass of the transmit loop, TX-done and packet reception are changes the runs allow the device |
| MmioTheorems.PendingExact | firmware/qemu-dev/smarteth_sc_bridge.c:174-205 | the flag is up exactly while one request or response exists (or is about to be sent); nobody sleeps on a lowered flag |
| MmioTheorems.NoDeadlock | firmware/qemu-dev/smarteth_sc_bridge.c:121-391 | in every reachable unfinished state some thread can step |
| MmioTheorems.ReaderProgress | firmware/qemu-dev/smarteth_sc_bridge.c:186-216 | no step but a spurious wake-up moves a reader away from its return, and each step by whoever holds the read strictly brings it nearer |
| MmioTheorems.SomeoneHoldsTheRead | firmware/qemu-dev/smarteth_sc_bridge.c:186-216 | a reader that cannot step has its request or response in transit, or waits for a lock whose holder can step |
| MmioHandlers.MessageInOneGo | firmware/qemu-dev/smarteth_sc_bridge.c:291-443 | the I/O thread's fine steps, taken in a row, handle a message as ScBridgeState.HandleMessage does |
| MmioHandlers.PeerTells | sim/systemc/src/pcie_bridge.cpp:57-135 | the socket thread sends one message for every interrupt a register access raises and no other, and answers each access once |
| MmioHandlers.WriteInOneGo | firmware/qemu-dev/smarteth_sc_bridge.c:218-271 | the guest's fine steps write as ScBridgeState.MmioWrite does |
| MmioHandlers.ReadBegunInOneGo | firmware/qemu-dev/smarteth_sc_bridge.c:186-197 | they begin a read as ScBridgeState.BeginRead does, and let the big lock go before waiting |
| MmioHandlers.ReadFinishedInOneGo | firmware/qemu-dev/smarteth_sc_bridge.c:198-216 | they finish a read as ScBridgeState.FinishRead does |
| DmaPairing.ReadGetsItsOwnResponse | sim/systemc/src/pcie_bridge.cpp:222-267 | with nothing owed at the call, a return with true means QEMU served this read, and the buffer holds what that serving saw |
| DmaPairing.WriteThenRead | sim/systemc/src/pcie_bridge.cpp:222-285 | an acknowledged dma_write is visible to a following dma_read of its range |
| DmaPairing.LateStoreIsRead | firmware/qemu-dev/smarteth_sc_bridge.c:291-318 | a guest store between the request and its serving is what the read brings back |
| DmaPairing.PairingExact | sim/systemc/src/pcie_bridge.cpp:137-145 | a read can be ended by someone else's reply if and only if it is issued with one owed and no MMIO request in front |
| DmaPairing.ReadAfterWriteIsExposed | sim/systemc/src/nic.cpp:301-336 | a read straight after a write, as in the drain loop, is such a read |
| DmaPairing.FinishExact | sim/systemc/src/nic.cpp:66-82 | a waiting read can come back without a timeout if and only if no MMIO request heads the stream |
| Framing.Outgoing.MakeMsg | sim/systemc/src/protocol.h:167-181 | header and payload laid out in one buffer |
| Framing.HeaderLayout | sim/systemc/src/protocol.h:167-181 | byte for byte: type, payload length, lowest byte first, and payload |
| Framing.Outgoing.SendAll | sim/systemc/src/pcie_bridge.cpp:46-55 | for every splitting into writes, all bytes go out, or a proper prefix and false |
| Framing.Incoming.RecvAll | firmware/qemu-dev/smarteth_sc_bridge.c:105-115 | for every splitting into reads, the buffer is filled if and only if the stream holds enough |
| Framing.Incoming.IoLoop | firmware/qemu-dev/smarteth_sc_bridge.c:467-492 | the messages handled are the parse of the stream, however it is split |
| Framing.Incoming.SocketLoop | sim/systemc/src/pcie_bridge.cpp:189-216 | what the SystemC loop makes of a stream, short header reads and uninitialised bytes included |
| Framing.ParsePrefix | firmware/qemu-dev/smarteth_sc_bridge.c:467-492 | a stream cut after any number of bytes parses to exactly the messages complete by then |
| Framing.Transfer | firmware/qemu-dev/smarteth_sc_bridge.c:93-115 | send, split, receive gives back the list |
| Wire.ToQemuRoundTrip | firmware/qemu-dev/smarteth_sc_bridge.c:370-443 | QEMU reads back every message the NIC lays out, DMA writes up to 4096 bytes; the type numbers |
| Wire.ToScRoundTrip | sim/systemc/src/pcie_bridge.cpp:57-145 | the NIC reads back every message QEMU lays out; the type numbers |
| Wire.StreamRoundTrip | firmware/qemu-dev/smarteth_sc_bridge.c:467-492 | typed messages through bytes and back: the same list in the same order |
| Wire.HandlePayload | firmware/qemu-dev/smarteth_sc_bridge.c:370-443 | short payloads and unknown types change nothing; the others are handled as their message |
| Framing.ScLoopExact | sim/systemc/src/pcie_bridge.cpp:189-209 | the SystemC loop reads every list correctly, whatever its uninitialised header held, if and only if no read splits a header |
| IrqStatus.DeviceIsRegBlock | sim/systemc/src/reg_block.cpp:76-91 | the device end of the interrupt model is the register block |
| IrqStatus.HandlerInOneGo | firmware/host-driver/driver/smarteth_main.c:179-206 | with nothing else about, the handler's and the device's steps clear the whole status, as Adapter.IrqHandler does |
| IrqStatus.StepKeeps | firmware/host-driver/driver/smarteth_main.c:179-206 | every step of handler, stream and device keeps the interrupt invariant |
| IrqStatus.NoBitLost | firmware/host-driver/driver/smarteth_main.c:184-189 | each 0-to-1 transition is still pending or was shown by a later handler read |
| IrqStatus.ClearsOnlySeen | firmware/host-driver/driver/smarteth_main.c:188-189 | a clear of a bit always follows a read that showed it, with no new rise in between |
| IrqStatus.RaiseDuringClear | sim/systemc/src/reg_block.cpp:76-80 | a raise that meets a clear in flight stays pending if and only if the snapshot lacked the bit |
| Numerals.ParseNumeral | firmware/bsp/uart.c:144-150 | numerals read back, in radix 10 and 16 |
| Numerals.NumeralCanonical | firmware/bsp/uart.c:118-128 | only digits, no leading zero but for zero itself |
| Numerals.NumeralUnique | firmware/bsp/uart.c:144-150 | no other digit string without a leading zero has that value |
| Numerals.NumeralLength | firmware/bsp/uart.c:136-150 | at most n digits if and only if below the n-th power of the radix |
| Uart.Digits | firmware/bsp/uart.c:144-148 | the scratch array holds the numeral backwards, within 20 of its 24 cells |
| Uart.ScratchDigits | firmware/bsp/uart.c:136-148 | 20 digits suffice for every 64-bit value, and exactly the values from 10^19 on need them |
| Uart.PutUnsigned | firmware/bsp/uart.c:153-164 | %u and %lu append the decimal numeral |
| Uart.PutSigned | firmware/bsp/uart.c:132-151 | %d and %ld append sign and magnitude, the most negative value included |
| Uart.PutHex | firmware/bsp/uart.c:118-130 | %x and %lx append the hexadecimal numeral |
| Uart.SignedRoundTrip | firmware/bsp/uart.c:132-151 | signed text reads back, for every 64-bit value, from at most 20 characters |
| Uart.PutPiece | firmware/bsp/uart.c:91-223 | each directive appends its piece, %s cut at the limit, also where that runs past the buffer |
| UartDirectives.HexDirective | firmware/bsp/uart.c:100-113 | "%x" puts digits of radix 16 without a leading zero that read as the word |
| UartDirectives.LongHexDirective | firmware/bsp/uart.c:118-131 | "%lx" likewise for the 64-bit word |
| UartDirectives.UnsignedDirective | firmware/bsp/uart.c:195-207 | "%u" puts digits of radix 10 without a leading zero that read as the word |
| UartDirectives.LongUnsignedDirective | firmware/bsp/uart.c:153-164 | "%lu" likewise for the 64-bit word |
| UartDirectives.SignedDirective | firmware/bsp/uart.c:174-194 | "%d" and "%i" put a numeral with sign that reads as the number in signed range congruent to the word modulo 2^32 |
| UartDirectives.LongSignedDirective | firmware/bsp/uart.c:132-152 | "%ld" and "%li" likewise modulo 2^64 |
| UartDirectives.TextDirectives | firmware/bsp/uart.c:94-212 | "%s" puts the string and "%c" the character of the low byte |
| UartDirectives.PlainCharacter | firmware/bsp/uart.c:221-224 | any other character stands for itself and takes no argument |
| UartDirectives.OtherDirective | firmware/bsp/uart.c:213-219 | "%%" is a percent sign, and an unknown directive comes out as written |
| UartDirectives.OtherLongDirective | firmware/bsp/uart.c:166-171 | likewise after "%l" |
| UartDirectives.DigitTable | firmware/bsp/uart.c:107-108 | the digits are those of the table |
| Uart.Format | firmware/bsp/uart.c:89-226 | the loop stores what the recursive renderer says and then a NUL, past the buffer exactly when the format crosses its end |
| Uart.OverrunExact | firmware/bsp/uart.c:90-226 | the stored text passes 255 characters if and only if the first piece that takes the text past them starts before and is no string argument |
| Uart.OverrunBound | firmware/bsp/uart.c:90-226 | and then by at most 19 characters |
| Uart.LongPieceOverruns | firmware/bsp/uart.c:90-226 | after 254 plain characters %lu crosses for every value from 10 on, and the greatest value meets the bound |
| Uart.StoredCut | firmware/bsp/uart.c:90-226 | every other format is stored as its text cut at 255 characters |
| Uart.StoredExact | firmware/bsp/uart.c:90-230 | the whole text is stored inside the buffer if and only if it has at most 255 characters |
| Uart.PrintedText | firmware/bsp/uart.c:226-229 | what goes out for a format that stays within the buffer: its text cut at 255 characters, recoverable from the line |
| Uart.PrintedExact | firmware/bsp/uart.c:226-229 | NUL-free text goes out whole, from within the buffer, if and only if it has at most 255 characters |
| Uart.Console.Printf | firmware/bsp/uart.c:80-230 | what goes out on the line for a format and its arguments |
| Uart.Console.Puts | firmware/bsp/uart.c:60-64 | the string up to its NUL, line feeds expanded |
| Uart.Console.Putc | firmware/bsp/uart.c:30-41 | a line feed is followed by a carriage return |
| Uart.CollapseExpand | firmware/bsp/uart.c:38-40 | the text is recoverable from the expanded output |
| Uart.ExpandLine | firmware/bsp/uart.c:30-41 | line by line: each line as it is, its line feed and a carriage return |
| PciConfig.EcamInjective | firmware/rtos/pci_test.c:20-29 | two in-range accesses address the same word if and only if they are the same function and dword |
| PciConfig.Write16Exact | firmware/rtos/pci_test.c:64-72 | a 16-bit write is read back and changes no other halfword of any function |
| PciConfig.Write16Bytes | firmware/rtos/pci_test.c:42-47 | the same, byte by byte through the 8-bit read |
| PciConfig.Host.ConfigWrite16 | firmware/rtos/pci_test.c:64-72 | read, merge and write back as one 16-bit write |
| PciConfig.Host.Scan | firmware/rtos/pci_test.c:76-137 | the lowest matching slot of 32 is programmed and its BAR returned; with none, nothing changes and 0 is returned |
| PciConfig.ProgramExact | firmware/rtos/pci_test.c:92-132 | programming gives an unassigned device the address 0x4000_0000 and sets bits 1 and 2 of the command word; every other bit of that word and every other halfword of configuration space stays |
| PciConfig.SmartEthIs | firmware/rtos/pci_test.c:80-92 | the device is found by 0x1efd and 1 in the halves of its first word |

## Left out

- Socket creation, connecting, retrying, disconnecting and shutdown: both ends are connected throughout. Before a connection a bridge write is only cached and a read answered from the cache (`ScBridge.ScBridgeState` has that case; the concurrent model starts connected).
- BRIDGE_RESET: nothing sends it.
- SystemC time, delays and `poll_irq` resends carry no state. A region under the register mutex is one atomic step, or finer DMA steps in `TxProtocol`; the delay inside the drain loop is where other processes may run, although the mutex is still held there in the code.
- A doorbell event that comes while the transmit process is not waiting for it is lost in SystemC; the loop sees the flag instead, and so does the model.
- A failed DMA access has no effect on memory or buffer. A descriptor read or write is one step; a read torn by a driver store within its 16 bytes is not modelled.
- In `TxChannel` transmission is the only user of DMA and no read times out; receive traffic would add acknowledgements of its own.
- One guest vCPU, as the single response slot assumes. A guest access is a 32-bit word in the concurrent model; 64-bit writes are in `PhaseEquivalence` and `ScBridge`.
- The device's own messages in `MmioProtocol` are arbitrary DMA requests and interrupts at arbitrary moments; the peer is responsive. The case where it is not, because a DMA read holds the register mutex, is `DmaPairing`.
- Two SystemC threads writing to the socket at once without a lock (`send_all` in both): each message is taken to go out whole.
- PcieBridge.SocketEnd.HandleMessage: does not model BRIDGE_RESET, which nothing sends, or messages too short for their fields.
- PcieBridge.SocketEnd.BeginRead: does not model the returns on a closed socket or a failed send; both ends are connected.
- ScBridge.ScBridgeState.HandleMessage: takes a decoded message; Wire.HandlePayload is the handler on a payload. A DMA write shorter than its own length field is read as far as it goes.
- Uart.Console.Printf: a format that crosses the end of the buffer is not printed, since what the extra characters overwrite is not modelled; Uart.Format says where they go.
- What QEMU does with an interrupt signal: it is an entry in a log. The vector a device chooses is not part of the Phase comparison.
- 64-bit wrap-around of an address inside one DMA access.
- The Phase 4 ring processes do not run in the Phase 2 comparison; Phase 2 does not have them.
- Kernel facilities: allocation and mapping may fail at any call, and a mapping that succeeds overlaps no other. The error path of probe does not call the free routine, so balance is claimed for the prepare and free pair only.
- PktProc parsing and its CRC stub, timing constants, NetIf, the printed self-tests, the sysfs parser, scripts and build files.
- `uart_puthex`, UART set-up and the busy wait for the transmitter: straight-line code.
- PciConfig models configuration space as memory; registers with read or write side effects, such as the status half of the command word, are not.
- MMIO accesses beyond the 0x400-byte register window: in the concurrent model they do not occur, since the BAR ends there; the class methods handle them.
- Config accesses out of the ECAM range: callers use slots 0 to 31 of bus 0 and offsets below 4096.
