/**
 * The port-I/O VM-exit handler: one trapped access (direction, operand size,
 * port, repeat count, and the shared data area) is routed by the port map to
 * the real-time clock pair, PS/2 control port A, the PCI configuration pair,
 * the serial collaborator, or absorbed.  Two registers persist across calls:
 * the RTC index and the latched PCI configuration address.
 *
 * `Step` is the meaning of one call on values; the class `Dispatcher` holds
 * the two registers and its method `Handle` does the same work in place on
 * the data area and is proved to agree with `Step`.
 */
module IoHandle {
  import opened PortMap
  import LittleEndian

  /** KVM's direction of a port access: In is a guest read, Out a guest write. */
  datatype Direction = In | Out

  /** One trapped access, without its data area. */
  datatype Access = Access(dir: Direction, size: nat, port: bv16, count: nat)

  /** The two registers the handler keeps from one call to the next. */
  datatype Regs = Regs(rtcIndex: bv8, pciConfigAddr: bv32)

  /** Both registers have static storage, so both start at zero. */
  const InitialRegs := Regs(0, 0)

  /** What one call leaves behind: the registers, the data area, and which handler ran. */
  datatype Effect = Effect(regs: Regs, data: seq<bv8>, outcome: Outcome)

  /** The only RTC registers the handler answers. */
  const RtcShutdownStatus: bv8 := 0x0f
  const RtcCentury: bv8 := 0x34

  /** The data area after an In on the RTC data port with index `index` latched. */
  function RtcRead(index: bv8, data: seq<bv8>): (r: seq<bv8>)
    requires |data| >= 1
    ensures |r| == |data| && r[1..] == data[1..]
    ensures index != RtcShutdownStatus && index != RtcCentury ==> r == data
  {
    if index == RtcShutdownStatus then data[0 := 0x00]
    else if index == RtcCentury then data[0 := 0x08]
    else data
  }

  /** An access that fell in the RTC range. */
  function RtcAccess(regs: Regs, a: Access, data: seq<bv8>): (e: Effect)
    requires |data| >= 1
    ensures e.outcome == Rtc
    ensures e.regs.pciConfigAddr == regs.pciConfigAddr
    ensures e.regs.rtcIndex != regs.rtcIndex ==> a.port == RtcIndexPort && a.dir == Out
    ensures a.port == RtcIndexPort && a.dir == Out ==> e.regs.rtcIndex < 0x80
    ensures |e.data| == |data| && e.data[1..] == data[1..]
    ensures e.data != data ==> a.port == RtcDataPort && a.dir == In
  {
    if a.port == RtcIndexPort && a.dir == Out then
      Effect(regs.(rtcIndex := data[0] & 0x7f), data, Rtc)
    else if a.port == RtcDataPort && a.dir == In then
      Effect(regs, RtcRead(regs.rtcIndex, data), Rtc)
    else
      Effect(regs, data, Rtc)
  }

  /** Control port A reads as 0x00; it is answered only for single-byte, non-repeated reads. */
  function Ps2Access(regs: Regs, a: Access, data: seq<bv8>): (e: Effect)
    requires |data| >= 1
    ensures e.outcome == Ps2 && e.regs == regs
    ensures |e.data| == |data| && e.data[1..] == data[1..]
    ensures e.data != data ==> a.port == Ps2IoScpa && a.dir == In && a.size == 1 && a.count == 1
  {
    if a.port == Ps2IoScpa && a.count == 1 && a.size == 1 && a.dir == In then
      Effect(regs, data[0 := 0x00], Ps2)
    else
      Effect(regs, data, Ps2)
  }

  /** The value every 16-bit read of the PCI data port returns. */
  const PciNoDevice: bv16 := 0x8000

  /** An access that fell in the PCI configuration range. */
  function PciAccess(regs: Regs, a: Access, data: seq<bv8>): (e: Effect)
    requires |data| >= 4
    ensures e.outcome == Pci && e.regs.rtcIndex == regs.rtcIndex
    ensures e.regs.pciConfigAddr != regs.pciConfigAddr ==> a.port == PciIoConfigAddr && a.dir == Out
    ensures |e.data| == |data| && e.data[2..] == data[2..]
    ensures e.data != data ==> a.port == PciIoConfigData && a.dir == In && a.size == 2
  {
    if a.port == PciIoConfigAddr then
      if a.dir == Out then Effect(regs.(pciConfigAddr := LittleEndian.Value32(data)), data, Pci)
      else Effect(regs, data, Pci)
    else if a.port == PciIoConfigData then
      if a.dir == In && a.size == 2 then Effect(regs, LittleEndian.Store16(data, PciNoDevice), Pci)
      else Effect(regs, data, Pci)
    else Effect(regs, data, Pci)
  }

  /** One call of the handler. */
  function Step(serial: SerialPorts, regs: Regs, a: Access, data: seq<bv8>): (e: Effect)
    requires |data| >= 4
    ensures e.outcome == Classify(serial, a.port)
    ensures |e.data| == |data|
  {
    match Classify(serial, a.port)
    case Rtc => RtcAccess(regs, a, data)
    case Ps2 => Ps2Access(regs, a, data)
    case Pci => PciAccess(regs, a, data)
    case other => Effect(regs, data, other)
  }

  /** One trap as the run loop delivers it: the access and the data area it comes with. */
  datatype Trap = Trap(access: Access, data: seq<bv8>)

  predicate WellSized(traps: seq<Trap>) {
    forall t :: t in traps ==> |t.data| >= 4
  }

  /** The registers after the handler has been called on each trap in turn. */
  function Run(serial: SerialPorts, regs: Regs, traps: seq<Trap>): Regs
    requires WellSized(traps)
    decreases |traps|
  {
    if traps == [] then regs
    else
      assert traps[0] in traps;
      Run(serial, Step(serial, regs, traps[0].access, traps[0].data).regs, traps[1..])
  }

  /** The handler with its two persistent registers. */
  class Dispatcher {
    const serial: SerialPorts
    var rtcIndex: bv8
    var pciConfigAddr: bv32

    function Registers(): Regs
      reads this
    {
      Regs(rtcIndex, pciConfigAddr)
    }

    /** The index register only ever holds a seven-bit value. */
    predicate Valid()
      reads this
    {
      rtcIndex < 0x80
    }

    constructor (serial: SerialPorts)
      ensures this.serial == serial
      ensures Registers() == InitialRegs
      ensures Valid()
    {
      this.serial := serial;
      rtcIndex := 0;
      pciConfigAddr := 0;
    }

    /**
     * Handle one trapped access on `data`, the data area of the exit. The
     * PCI address latch reads four bytes whatever the operand size, so the
     * area must hold four bytes; KVM's area is a whole page.
     */
    method Handle(dir: Direction, size: nat, port: bv16, count: nat, data: array<bv8>)
      returns (outcome: Outcome)
      requires Valid()
      requires data.Length >= 4
      modifies this, data
      ensures Valid()
      ensures Effect(Registers(), data[..], outcome)
              == Step(serial, old(Registers()), Access(dir, size, port, count), old(data[..]))
      ensures dir == Out ==> data[..] == old(data[..])
      ensures forall i :: 2 <= i < data.Length ==> data[i] == old(data[i])
    {
      if MaskMatch(port, serial.base, serial.mask) {
        outcome := Skipped;
      } else if port == serial.tx {
        // the serial collaborator takes the access from here
        outcome := SerialForwarded;
      } else if MaskMatch(port, RtcIoBase, RtcIoMask) {
        if port == RtcIndexPort && dir == Out {
          rtcIndex := data[0] & 0x7f;
        } else if port == RtcDataPort && dir == In {
          if rtcIndex == RtcShutdownStatus {
            data[0] := 0x00;
          } else if rtcIndex == RtcCentury {
            data[0] := 0x08;
          }
        }
        outcome := Rtc;
      } else if MaskMatch(port, Ps2IoBase, Ps2IoMask) {
        if port == Ps2IoScpa && count == 1 && size == 1 {
          if dir == In {
            data[0] := 0x00;
          }
        }
        outcome := Ps2;
      } else if MaskMatch(port, Dma2IoBase, Dma2IoMask) {
        outcome := Skipped;
      } else if MaskMatch(port, KbcIoBase, KbcIoMask) {
        outcome := Skipped;
      } else if MaskMatch(port, ParallelPrinterIoBase, ParallelPrinterIoMask)
             || MaskMatch(port, ParallelPrinter2IoBase, ParallelPrinter2IoMask) {
        outcome := Skipped;
      } else if MaskMatch(port, PciIoBase, PciIoMask) {
        if port == PciIoConfigAddr {
          if dir == Out {
            pciConfigAddr := LittleEndian.Value32(data[..]);
          }
        } else if port == PciIoConfigData {
          if dir == In && size == 2 {
            var bytes := LittleEndian.Bytes16(PciNoDevice);
            data[0], data[1] := bytes[0], bytes[1];
          }
        }
        outcome := Pci;
      } else if port in LegacyExactPorts {
        outcome := Skipped;
      } else if MaskMatch(port, Upw48IoBase, Upw48IoMask) {
        outcome := Skipped;
      } else if MaskMatch(port, Hdc1IoBase, Hdc1IoMask) || MaskMatch(port, Hdc2IoBase, Hdc2IoMask) {
        outcome := Skipped;
      } else {
        outcome := Unmatched;
      }
    }
  }
}
