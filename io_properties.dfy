/**
 * What one call of the port-I/O handler does, device by device, and what a
 * sequence of calls keeps.  Every lemma is about the function `Step` (one
 * call) or `Run` (the calls of a run loop), which `Dispatcher.Handle` is
 * proved to implement.
 */
module IoProperties {
  import opened PortMap
  import opened IoHandle
  import LittleEndian

  /** The access leaves both registers and the whole data area as they were. */
  predicate Inert(e: Effect, regs: Regs, data: seq<bv8>) {
    e.regs == regs && e.data == data
  }

  // ---------------------------------------------------------------------------
  // Serial ports
  // ---------------------------------------------------------------------------

  /** The serial base range comes first and is absorbed without any effect or forwarding. */
  lemma SerialRangeIsInert(serial: SerialPorts, regs: Regs, a: Access, data: seq<bv8>)
    requires |data| >= 4
    requires InSerialRange(serial, a.port)
    ensures var e := Step(serial, regs, a, data);
      Inert(e, regs, data) && e.outcome == Skipped
  {
  }

  /**
   * An access is forwarded to the serial collaborator exactly when its port
   * is the transmit port and lies outside the serial base range; the handler
   * itself then changes nothing.
   */
  lemma SerialForwarding(serial: SerialPorts, regs: Regs, a: Access, data: seq<bv8>)
    requires |data| >= 4
    ensures var e := Step(serial, regs, a, data);
      && (e.outcome == SerialForwarded <==> a.port == serial.tx && !InSerialRange(serial, a.port))
      && (e.outcome == SerialForwarded ==> Inert(e, regs, data))
  {
  }

  // ---------------------------------------------------------------------------
  // Real-time clock
  // ---------------------------------------------------------------------------

  /** An Out on the index port latches the low seven bits of the first byte and writes nothing. */
  lemma RtcIndexLatch(serial: SerialPorts, regs: Regs, a: Access, data: seq<bv8>)
    requires |data| >= 4
    requires !SerialClaims(serial, RtcIndexPort)
    requires a.port == RtcIndexPort && a.dir == Out
    ensures var e := Step(serial, regs, a, data);
      && e.regs == Regs(data[0] & 0x7f, regs.pciConfigAddr)
      && e.regs.rtcIndex < 0x80
      && e.data == data
      && e.outcome == Rtc
  {
  }

  /**
   * An In on the data port answers 0x00 for the shutdown status register and
   * 0x08 for the century register, leaves the area untouched for every other
   * index, and changes no register.
   */
  lemma RtcDataRead(serial: SerialPorts, regs: Regs, a: Access, data: seq<bv8>)
    requires |data| >= 4
    requires !SerialClaims(serial, RtcDataPort)
    requires a.port == RtcDataPort && a.dir == In
    ensures var e := Step(serial, regs, a, data);
      && e.regs == regs
      && e.outcome == Rtc
      && e.data[1..] == data[1..]
      && e.data[0] == (if regs.rtcIndex == 0x0f then 0x00
                       else if regs.rtcIndex == 0x34 then 0x08
                       else data[0])
  {
  }

  /**
   * Every other access in 0x70..0x7f (an In on the index port, an Out on the
   * data port, any access to 0x72..0x7f) is inert.
   */
  lemma RtcRangeOtherAccessesInert(serial: SerialPorts, regs: Regs, a: Access, data: seq<bv8>)
    requires |data| >= 4
    requires !SerialClaims(serial, a.port)
    requires 0x0070 <= a.port <= 0x007f
    requires !(a.port == RtcIndexPort && a.dir == Out) && !(a.port == RtcDataPort && a.dir == In)
    ensures var e := Step(serial, regs, a, data);
      Inert(e, regs, data) && e.outcome == Rtc
  {
  }

  /** A call keeps the index register below 0x80. */
  lemma StepKeepsRtcIndexBelow0x80(serial: SerialPorts, regs: Regs, a: Access, data: seq<bv8>)
    requires |data| >= 4
    requires regs.rtcIndex < 0x80
    ensures Step(serial, regs, a, data).regs.rtcIndex < 0x80
  {
  }

  /** From the initial registers on, the index register stays below 0x80 over any run. */
  lemma {:induction false} RunKeepsRtcIndexBelow0x80(serial: SerialPorts, regs: Regs, traps: seq<Trap>)
    requires WellSized(traps)
    requires regs.rtcIndex < 0x80
    ensures Run(serial, regs, traps).rtcIndex < 0x80
    decreases |traps|
  {
    if traps != [] {
      assert traps[0] in traps;
      StepKeepsRtcIndexBelow0x80(serial, regs, traps[0].access, traps[0].data);
      RunKeepsRtcIndexBelow0x80(serial, Step(serial, regs, traps[0].access, traps[0].data).regs, traps[1..]);
    }
  }

  /**
   * Writing `v` to the index port and then reading the data port answers
   * according to `v & 0x7f`: so 0x8f selects the shutdown status register
   * just as 0x0f does.
   */
  lemma RtcLatchThenRead(serial: SerialPorts, regs: Regs, size1: nat, count1: nat, written: seq<bv8>,
                         size2: nat, count2: nat, buffer: seq<bv8>)
    requires |written| >= 4 && |buffer| >= 4
    requires !SerialClaims(serial, RtcIndexPort) && !SerialClaims(serial, RtcDataPort)
    ensures var r1 := Step(serial, regs, Access(Out, size1, RtcIndexPort, count1), written).regs;
      var e := Step(serial, r1, Access(In, size2, RtcDataPort, count2), buffer);
      && e.data[1..] == buffer[1..]
      && e.data[0] == (if written[0] & 0x7f == 0x0f then 0x00
                       else if written[0] & 0x7f == 0x34 then 0x08
                       else buffer[0])
  {
  }

  // ---------------------------------------------------------------------------
  // PS/2 system control port A
  // ---------------------------------------------------------------------------

  /**
   * The whole range 0x90..0x9f goes to the PS/2 handler; the only access in
   * it with an effect is a single-byte, non-repeated In on port 0x92, which
   * reads 0x00.
   */
  lemma Ps2Range(serial: SerialPorts, regs: Regs, a: Access, data: seq<bv8>)
    requires |data| >= 4
    requires !SerialClaims(serial, a.port)
    requires 0x0090 <= a.port <= 0x009f
    ensures var e := Step(serial, regs, a, data);
      && e.outcome == Ps2
      && e.regs == regs
      && e.data == (if a.port == 0x0092 && a.count == 1 && a.size == 1 && a.dir == In
                    then data[0 := 0x00] else data)
  {
  }

  // ---------------------------------------------------------------------------
  // PCI configuration mechanism
  // ---------------------------------------------------------------------------

  /**
   * An Out on the address port latches the four bytes of the area, read
   * little-endian, whatever the operand size; the area and the RTC index are
   * left alone, and the latch holds exactly those four bytes.
   */
  lemma PciAddressLatch(serial: SerialPorts, regs: Regs, a: Access, data: seq<bv8>)
    requires |data| >= 4
    requires !SerialClaims(serial, PciIoConfigAddr)
    requires a.port == PciIoConfigAddr && a.dir == Out
    ensures var e := Step(serial, regs, a, data);
      && e.regs.rtcIndex == regs.rtcIndex
      && LittleEndian.Bytes32(e.regs.pciConfigAddr) == data[..4]
      && e.data == data
      && e.outcome == Pci
  {
  }

  /**
   * A 16-bit In on the data port reads 0x8000, stored little-endian as the
   * bytes 0x00, 0x80; the rest of the area and both registers are left alone.
   */
  lemma PciDataRead(serial: SerialPorts, regs: Regs, a: Access, data: seq<bv8>)
    requires |data| >= 4
    requires !SerialClaims(serial, PciIoConfigData)
    requires a.port == PciIoConfigData && a.dir == In && a.size == 2
    ensures var e := Step(serial, regs, a, data);
      && e.regs == regs
      && e.data[0] == 0x00 && e.data[1] == 0x80
      && LittleEndian.Value16(e.data) == 0x8000
      && e.data[2..] == data[2..]
      && e.outcome == Pci
  {
  }

  /** What a call writes to the area never depends on the latched PCI address. */
  lemma DataIgnoresPciAddress(serial: SerialPorts, regs: Regs, addr: bv32, a: Access, data: seq<bv8>)
    requires |data| >= 4
    ensures Step(serial, regs, a, data).data == Step(serial, regs.(pciConfigAddr := addr), a, data).data
  {
  }

  /**
   * Every other access in 0xcf8..0xcff is inert: an In on the address port,
   * an Out on the data port, an In on it of width other than 2, and the
   * ports 0xcf9..0xcfb and 0xcfd..0xcff.
   */
  lemma PciRangeOtherAccessesInert(serial: SerialPorts, regs: Regs, a: Access, data: seq<bv8>)
    requires |data| >= 4
    requires !SerialClaims(serial, a.port)
    requires 0x0cf8 <= a.port <= 0x0cff
    requires !(a.port == PciIoConfigAddr && a.dir == Out)
    requires !(a.port == PciIoConfigData && a.dir == In && a.size == 2)
    ensures var e := Step(serial, regs, a, data);
      Inert(e, regs, data) && e.outcome == Pci
  {
  }

  /**
   * Latching any address and then reading the data port with width 2 reads
   * 0x8000, independent of the address written.
   */
  lemma PciLatchThenRead(serial: SerialPorts, regs: Regs, size1: nat, count1: nat, written: seq<bv8>,
                         count2: nat, buffer: seq<bv8>)
    requires |written| >= 4 && |buffer| >= 4
    requires !SerialClaims(serial, PciIoConfigAddr) && !SerialClaims(serial, PciIoConfigData)
    ensures var r1 := Step(serial, regs, Access(Out, size1, PciIoConfigAddr, count1), written).regs;
      var e := Step(serial, r1, Access(In, 2, PciIoConfigData, count2), buffer);
      e.data == [0x00, 0x80] + buffer[2..]
  {
  }

  // ---------------------------------------------------------------------------
  // Absorbed and unmatched ports
  // ---------------------------------------------------------------------------

  /**
   * The DMA, keyboard, printer, legacy single, generic legacy and disk
   * controller ports are absorbed: nothing is written, no register changes.
   */
  lemma StubPortsInert(serial: SerialPorts, regs: Regs, a: Access, data: seq<bv8>)
    requires |data| >= 4
    requires !SerialClaims(serial, a.port)
    requires IsStubPort(a.port)
    ensures var e := Step(serial, regs, a, data);
      Inert(e, regs, data) && e.outcome == Skipped
  {
  }

  /**
   * A port no rule recognises is tolerated: the call has no effect. Outside
   * the serial ports these are exactly the ports outside every device range.
   */
  lemma UnmatchedInert(serial: SerialPorts, regs: Regs, a: Access, data: seq<bv8>)
    requires |data| >= 4
    requires !SerialClaims(serial, a.port)
    requires !(0x0070 <= a.port <= 0x007f || 0x0090 <= a.port <= 0x009f
               || 0x0cf8 <= a.port <= 0x0cff || IsStubPort(a.port))
    ensures var e := Step(serial, regs, a, data);
      Inert(e, regs, data) && e.outcome == Unmatched
  {
  }

  /** Any port that matches no rule, the serial ones included, leaves everything as it was. */
  lemma UnmatchedHasNoEffect(serial: SerialPorts, regs: Regs, a: Access, data: seq<bv8>)
    requires |data| >= 4
    requires Classify(serial, a.port) == Unmatched
    ensures Inert(Step(serial, regs, a, data), regs, data)
  {
  }

  // ---------------------------------------------------------------------------
  // Frame of one call
  // ---------------------------------------------------------------------------

  /**
   * A call writes the area only on an In, only in its first two bytes, and
   * only in the RTC, PS/2 and PCI handlers; the second byte only in the PCI
   * handler.
   */
  lemma StepFrame(serial: SerialPorts, regs: Regs, a: Access, data: seq<bv8>)
    requires |data| >= 4
    ensures var e := Step(serial, regs, a, data);
      && e.data[2..] == data[2..]
      && (a.dir == Out ==> e.data == data)
      && (e.data != data ==> e.outcome in {Rtc, Ps2, Pci})
      && (e.data[1] != data[1] ==> e.outcome == Pci)
  {
  }

  /**
   * The index register changes only through an Out on port 0x70, and the PCI
   * latch only through an Out on port 0xcf8.
   */
  lemma RegistersChangeOnlyByLatch(serial: SerialPorts, regs: Regs, a: Access, data: seq<bv8>)
    requires |data| >= 4
    ensures var e := Step(serial, regs, a, data);
      && (e.regs.rtcIndex != regs.rtcIndex ==> a.port == RtcIndexPort && a.dir == Out)
      && (e.regs.pciConfigAddr != regs.pciConfigAddr ==> a.port == PciIoConfigAddr && a.dir == Out)
  {
  }

  /** A run with no Out on the index port keeps the latched RTC index. */
  lemma {:induction false} RunWithoutIndexWriteKeepsIndex(serial: SerialPorts, regs: Regs, traps: seq<Trap>)
    requires WellSized(traps)
    requires forall t :: t in traps ==> !(t.access.port == RtcIndexPort && t.access.dir == Out)
    ensures Run(serial, regs, traps).rtcIndex == regs.rtcIndex
    decreases |traps|
  {
    if traps != [] {
      assert traps[0] in traps;
      RegistersChangeOnlyByLatch(serial, regs, traps[0].access, traps[0].data);
      var next := Step(serial, regs, traps[0].access, traps[0].data).regs;
      assert forall t :: t in traps[1..] ==> t in traps;
      RunWithoutIndexWriteKeepsIndex(serial, next, traps[1..]);
    }
  }

  /** A run with no Out on the address port keeps the latched PCI address. */
  lemma {:induction false} RunWithoutAddressWriteKeepsAddress(serial: SerialPorts, regs: Regs, traps: seq<Trap>)
    requires WellSized(traps)
    requires forall t :: t in traps ==> !(t.access.port == PciIoConfigAddr && t.access.dir == Out)
    ensures Run(serial, regs, traps).pciConfigAddr == regs.pciConfigAddr
    decreases |traps|
  {
    if traps != [] {
      assert traps[0] in traps;
      RegistersChangeOnlyByLatch(serial, regs, traps[0].access, traps[0].data);
      var next := Step(serial, regs, traps[0].access, traps[0].data).regs;
      assert forall t :: t in traps[1..] ==> t in traps;
      RunWithoutAddressWriteKeepsAddress(serial, next, traps[1..]);
    }
  }

  // ---------------------------------------------------------------------------
  // Concrete exchanges a booting guest performs
  // ---------------------------------------------------------------------------

  /** Select the shutdown status register, then read it: 0xaa is replaced by 0x00. */
  lemma ShutdownStatusExchange(serial: SerialPorts, regs: Regs)
    requires !SerialClaims(serial, 0x0070) && !SerialClaims(serial, 0x0071)
    ensures var r1 := Step(serial, regs, Access(Out, 1, 0x0070, 1), [0x0f, 0, 0, 0]).regs;
      Step(serial, r1, Access(In, 1, 0x0071, 1), [0xaa, 0, 0, 0]).data == [0x00, 0, 0, 0]
  {
  }

  /** Select the century register, then read it: 0xaa is replaced by 0x08. */
  lemma CenturyExchange(serial: SerialPorts, regs: Regs)
    requires !SerialClaims(serial, 0x0070) && !SerialClaims(serial, 0x0071)
    ensures var r1 := Step(serial, regs, Access(Out, 1, 0x0070, 1), [0x34, 0, 0, 0]).regs;
      Step(serial, r1, Access(In, 1, 0x0071, 1), [0xaa, 0, 0, 0]).data == [0x08, 0, 0, 0]
  {
  }

  /** Latch address 0x80000000, then read the data port with width 2: 0xffff becomes 0x8000. */
  lemma PciProbeExchange(serial: SerialPorts, regs: Regs)
    requires !SerialClaims(serial, 0x0cf8) && !SerialClaims(serial, 0x0cfc)
    ensures var r1 := Step(serial, regs, Access(Out, 4, 0x0cf8, 1), [0x00, 0x00, 0x00, 0x80]).regs;
      && r1.pciConfigAddr == 0x8000_0000
      && Step(serial, r1, Access(In, 2, 0x0cfc, 1), [0xff, 0xff, 0, 0]).data == [0x00, 0x80, 0, 0]
  {
  }

  /** A byte read of control port A reads 0x00. */
  lemma ControlPortAExchange(serial: SerialPorts, regs: Regs)
    requires !SerialClaims(serial, 0x0092)
    ensures Step(serial, regs, Access(In, 1, 0x0092, 1), [0xff, 0, 0, 0]).data == [0x00, 0, 0, 0]
  {
  }

  /** A read of the keyboard controller returns the area as it was. */
  lemma KeyboardControllerExchange(serial: SerialPorts, regs: Regs)
    requires !SerialClaims(serial, 0x0060)
    ensures Step(serial, regs, Access(In, 1, 0x0060, 1), [0x55, 0, 0, 0]).data == [0x55, 0, 0, 0]
  {
  }

  /** The RTC exchange through the class: what a run loop can rely on from the method contract. */
  method RtcProbe(serial: SerialPorts)
    requires !SerialClaims(serial, 0x0070) && !SerialClaims(serial, 0x0071)
  {
    var d := new Dispatcher(serial);
    var buf := new bv8[4](_ => 0);
    buf[0] := 0x8f;
    ghost var r0 := d.Registers();
    var o := d.Handle(Out, 1, 0x0070, 1, buf);
    RtcIndexLatch(serial, r0, Access(Out, 1, 0x0070, 1), [0x8f, 0, 0, 0]);
    assert d.rtcIndex == 0x0f && o == Rtc;
    buf[0] := 0xaa;
    ghost var r1 := d.Registers();
    ghost var b1 := buf[..];
    o := d.Handle(In, 1, 0x0071, 1, buf);
    RtcDataRead(serial, r1, Access(In, 1, 0x0071, 1), b1);
    assert buf[0] == 0x00;
  }

  /** The PCI exchange through the class. */
  method PciProbe(serial: SerialPorts)
    requires !SerialClaims(serial, 0x0cf8) && !SerialClaims(serial, 0x0cfc)
  {
    var d := new Dispatcher(serial);
    var buf := new bv8[4](_ => 0);
    buf[3] := 0x80;
    ghost var r0 := d.Registers();
    ghost var b0 := buf[..];
    var o := d.Handle(Out, 4, 0x0cf8, 1, buf);
    PciAddressLatch(serial, r0, Access(Out, 4, 0x0cf8, 1), b0);
    LittleEndian.Value32OfBytes32(d.pciConfigAddr);
    assert b0 == [0, 0, 0, 0x80];
    assert d.pciConfigAddr == 0x8000_0000;
    buf[0], buf[1] := 0xff, 0xff;
    ghost var r1 := d.Registers();
    ghost var b1 := buf[..];
    o := d.Handle(In, 2, 0x0cfc, 1, buf);
    PciDataRead(serial, r1, Access(In, 2, 0x0cfc, 1), b1);
    assert buf[0] == 0x00 && buf[1] == 0x80 && o == Pci;
  }
}
