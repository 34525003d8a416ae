/**
 * The port map of the port-I/O dispatcher: the chipset's port constants, the
 * serial collaborator's ports, and the first-match-wins chain that picks the
 * handler of one trapped port access.
 */
module PortMap {

  // Real-time clock: index port 0x70, data port 0x71, the whole 0x70..0x7f range.
  const RtcIoBase: bv16 := 0x0070
  const RtcIoMask: bv16 := 0xfff0
  const RtcIndexPort: bv16 := 0x0070
  const RtcDataPort: bv16 := 0x0071

  // PS/2 system control port A inside the 0x90..0x9f range.
  const Ps2IoBase: bv16 := 0x0090
  const Ps2IoMask: bv16 := 0xfff0
  const Ps2IoScpa: bv16 := 0x0092

  // Secondary DMA controller.
  const Dma2IoBase: bv16 := 0x00c0
  const Dma2IoMask: bv16 := 0xffc0

  // Keyboard controller.
  const KbcIoBase: bv16 := 0x0060
  const KbcIoMask: bv16 := 0xfff0

  // The two parallel printers.
  const ParallelPrinterIoBase: bv16 := 0x0378
  const ParallelPrinterIoMask: bv16 := 0xfff8
  const ParallelPrinter2IoBase: bv16 := 0x0278
  const ParallelPrinter2IoMask: bv16 := 0xfff8

  // Generic legacy range.
  const Upw48IoBase: bv16 := 0x0200
  const Upw48IoMask: bv16 := 0xff00

  // Primary and secondary hard-disk controllers.
  const Hdc1IoBase: bv16 := 0x01f0
  const Hdc1IoMask: bv16 := 0xfff0
  const Hdc2IoBase: bv16 := 0x0170
  const Hdc2IoMask: bv16 := 0xfff8

  // PCI configuration mechanism: address port 0xcf8, data port 0xcfc.
  const PciIoBase: bv16 := 0x0cf8
  const PciIoMask: bv16 := 0xfff8
  const PciIoConfigAddr: bv16 := 0x0cf8
  const PciIoConfigData: bv16 := 0x0cfc

  // The single ports that are absorbed without effect.
  const LegacyExactPorts: set<bv16> := {0x0510, 0x0511, 0x000d, 0x03e9}

  /**
   * The serial collaborator's ports: a base/mask range whose accesses are
   * absorbed, and the transmit port whose accesses are forwarded. Their values
   * belong to the serial module, so the dispatcher is parameterised by them.
   */
  datatype SerialPorts = SerialPorts(base: bv16, mask: bv16, tx: bv16)

  predicate MaskMatch(port: bv16, base: bv16, mask: bv16) {
    (port & mask) == base
  }

  predicate InSerialRange(serial: SerialPorts, port: bv16) {
    MaskMatch(port, serial.base, serial.mask)
  }

  /** The port is taken by one of the two serial rules, which come first. */
  predicate SerialClaims(serial: SerialPorts, port: bv16) {
    InSerialRange(serial, port) || port == serial.tx
  }

  /** Which handler a trapped access is given to. */
  datatype Outcome =
    | Skipped          // absorbed: no buffer write, no register change
    | SerialForwarded  // handed to the serial collaborator
    | Rtc              // real-time clock index/data pair
    | Ps2              // PS/2 system control port A range
    | Pci              // PCI configuration address/data pair
    | Unmatched        // no rule: tolerated, nothing happens

  /** The dispatch chain in the order the handler tests it; the first test that holds wins. */
  function Classify(serial: SerialPorts, port: bv16): (o: Outcome)
    ensures o != Skipped ==> !InSerialRange(serial, port)
    ensures o == SerialForwarded ==> port == serial.tx
    ensures o == Rtc ==> MaskMatch(port, RtcIoBase, RtcIoMask)
    ensures o == Ps2 ==> MaskMatch(port, Ps2IoBase, Ps2IoMask)
    ensures o == Pci ==> MaskMatch(port, PciIoBase, PciIoMask)
  {
    if InSerialRange(serial, port) then Skipped
    else if port == serial.tx then SerialForwarded
    else if MaskMatch(port, RtcIoBase, RtcIoMask) then Rtc
    else if MaskMatch(port, Ps2IoBase, Ps2IoMask) then Ps2
    else if MaskMatch(port, Dma2IoBase, Dma2IoMask) then Skipped
    else if MaskMatch(port, KbcIoBase, KbcIoMask) then Skipped
    else if MaskMatch(port, ParallelPrinterIoBase, ParallelPrinterIoMask)
         || MaskMatch(port, ParallelPrinter2IoBase, ParallelPrinter2IoMask) then Skipped
    else if MaskMatch(port, PciIoBase, PciIoMask) then Pci
    else if port in LegacyExactPorts then Skipped
    else if MaskMatch(port, Upw48IoBase, Upw48IoMask) then Skipped
    else if MaskMatch(port, Hdc1IoBase, Hdc1IoMask) || MaskMatch(port, Hdc2IoBase, Hdc2IoMask) then Skipped
    else Unmatched
  }

  /** The ports of the absorbed chipset devices, written as plain intervals. */
  predicate IsStubPort(port: bv16) {
    || 0x00c0 <= port <= 0x00ff   // secondary DMA controller
    || 0x0060 <= port <= 0x006f   // keyboard controller
    || 0x0378 <= port <= 0x037f   // parallel printer
    || 0x0278 <= port <= 0x027f   // second parallel printer
    || port in LegacyExactPorts
    || 0x0200 <= port <= 0x02ff   // generic legacy range
    || 0x01f0 <= port <= 0x01ff   // primary hard-disk controller
    || 0x0170 <= port <= 0x0177   // secondary hard-disk controller
  }

  /**
   * Outside the serial ports every mask test is an interval, and the chain
   * sends each interval to its device; what is left over is Unmatched.
   */
  lemma ClassifyByInterval(serial: SerialPorts, port: bv16)
    requires !SerialClaims(serial, port)
    ensures Classify(serial, port) == Rtc <==> 0x0070 <= port <= 0x007f
    ensures Classify(serial, port) == Ps2 <==> 0x0090 <= port <= 0x009f
    ensures Classify(serial, port) == Pci <==> 0x0cf8 <= port <= 0x0cff
    ensures Classify(serial, port) == Skipped <==> IsStubPort(port)
    ensures Classify(serial, port) == Unmatched <==>
              !(0x0070 <= port <= 0x007f || 0x0090 <= port <= 0x009f
                || 0x0cf8 <= port <= 0x0cff || IsStubPort(port))
    ensures Classify(serial, port) != SerialForwarded
  {
  }

  /** The serial base range shadows every later rule, the transmit port included. */
  lemma SerialRangeFirst(serial: SerialPorts, port: bv16)
    requires InSerialRange(serial, port)
    ensures Classify(serial, port) == Skipped
  {
  }

  /** Forwarding to the serial collaborator happens exactly on the transmit port outside the serial range. */
  lemma SerialForwardedIff(serial: SerialPorts, port: bv16)
    ensures Classify(serial, port) == SerialForwarded <==> (port == serial.tx && !InSerialRange(serial, port))
  {
  }

  // ---------------------------------------------------------------------------
  // The same chain as an explicit ordered table of matchers.
  // ---------------------------------------------------------------------------

  datatype Matcher = Exact(port: bv16) | Masked(base: bv16, mask: bv16) {
    predicate Hits(p: bv16) {
      match this
      case Exact(q) => p == q
      case Masked(b, m) => MaskMatch(p, b, m)
    }
  }

  /** A rule fires when any of its matchers hits; it then yields its outcome. */
  datatype Rule = Rule(matchers: seq<Matcher>, outcome: Outcome) {
    predicate Fires(p: bv16) {
      AnyHits(matchers, p)
    }
  }

  predicate AnyHits(ms: seq<Matcher>, p: bv16) {
    ms != [] && (ms[0].Hits(p) || AnyHits(ms[1..], p))
  }

  /** First-match-wins evaluation of an ordered rule table. */
  function FirstMatch(rules: seq<Rule>, port: bv16): (o: Outcome)
    ensures (forall j :: 0 <= j < |rules| ==> !rules[j].Fires(port)) ==> o == Unmatched
    ensures forall i :: (0 <= i < |rules| && rules[i].Fires(port)
                         && (forall j :: 0 <= j < i ==> !rules[j].Fires(port))) ==> o == rules[i].outcome
  {
    if rules == [] then Unmatched
    else if rules[0].Fires(port) then rules[0].outcome
    else
      var o := FirstMatch(rules[1..], port);
      assert forall j :: 1 <= j < |rules| ==> rules[j] == rules[1..][j - 1];
      o
  }

  /** The rules in the order the handler tests them. */
  function Table(serial: SerialPorts): seq<Rule> {
    [ Rule([Masked(serial.base, serial.mask)], Skipped),
      Rule([Exact(serial.tx)], SerialForwarded),
      Rule([Masked(RtcIoBase, RtcIoMask)], Rtc),
      Rule([Masked(Ps2IoBase, Ps2IoMask)], Ps2),
      Rule([Masked(Dma2IoBase, Dma2IoMask)], Skipped),
      Rule([Masked(KbcIoBase, KbcIoMask)], Skipped),
      Rule([Masked(ParallelPrinterIoBase, ParallelPrinterIoMask),
            Masked(ParallelPrinter2IoBase, ParallelPrinter2IoMask)], Skipped),
      Rule([Masked(PciIoBase, PciIoMask)], Pci),
      Rule([Exact(0x0510), Exact(0x0511), Exact(0x000d), Exact(0x03e9)], Skipped),
      Rule([Masked(Upw48IoBase, Upw48IoMask)], Skipped),
      Rule([Masked(Hdc1IoBase, Hdc1IoMask), Masked(Hdc2IoBase, Hdc2IoMask)], Skipped) ]
  }

  /**
   * The same rules with the PCI rule moved behind the legacy single ports,
   * the generic legacy range and the disk controllers.
   */
  function TablePciLast(serial: SerialPorts): seq<Rule> {
    var t := Table(serial);
    t[..7] + t[8..] + [t[7]]
  }

  /** The chain is the first-match evaluation of its table. */
  lemma ClassifyIsFirstMatch(serial: SerialPorts, port: bv16)
    ensures Classify(serial, port) == FirstMatch(Table(serial), port)
  {
    var t := Table(serial);
    TableFiring(serial, port);
    Unrolled(t, port);
  }

  /**
   * Testing PCI before the later stub rules is immaterial: no port of the
   * PCI range is a legacy single port, in the generic legacy range or a disk
   * controller port.
   */
  lemma PciPositionImmaterial(serial: SerialPorts, port: bv16)
    ensures FirstMatch(TablePciLast(serial), port) == FirstMatch(Table(serial), port)
  {
    var u := TablePciLast(serial);
    ClassifyIsFirstMatch(serial, port);
    var t := Table(serial);
    TableFiring(serial, port);
    assert u == [t[0], t[1], t[2], t[3], t[4], t[5], t[6], t[8], t[9], t[10], t[7]];
    if Fires(serial, 7, port) { PciRangeDisjoint(serial, port); }
    Unrolled(u, port);
  }

  /** First-match evaluation of an eleven-rule table, written out rule by rule. */
  lemma Unrolled(t: seq<Rule>, port: bv16)
    requires |t| == 11
    ensures FirstMatch(t, port) ==
      if t[0].Fires(port) then t[0].outcome
      else if t[1].Fires(port) then t[1].outcome
      else if t[2].Fires(port) then t[2].outcome
      else if t[3].Fires(port) then t[3].outcome
      else if t[4].Fires(port) then t[4].outcome
      else if t[5].Fires(port) then t[5].outcome
      else if t[6].Fires(port) then t[6].outcome
      else if t[7].Fires(port) then t[7].outcome
      else if t[8].Fires(port) then t[8].outcome
      else if t[9].Fires(port) then t[9].outcome
      else if t[10].Fires(port) then t[10].outcome
      else Unmatched
  {
    assert t[0..] == t;
    assert t[11..] == [];
    FirstMatchFrom(t, 0, port);
    FirstMatchFrom(t, 1, port);
    FirstMatchFrom(t, 2, port);
    FirstMatchFrom(t, 3, port);
    FirstMatchFrom(t, 4, port);
    FirstMatchFrom(t, 5, port);
    FirstMatchFrom(t, 6, port);
    FirstMatchFrom(t, 7, port);
    FirstMatchFrom(t, 8, port);
    FirstMatchFrom(t, 9, port);
    FirstMatchFrom(t, 10, port);
  }

  /** One step of first-match evaluation on the suffix starting at rule `k`. */
  lemma FirstMatchFrom(rules: seq<Rule>, k: nat, port: bv16)
    requires k < |rules|
    ensures FirstMatch(rules[k..], port) ==
      if rules[k].Fires(port) then rules[k].outcome else FirstMatch(rules[k + 1..], port)
  {
  }

  /** Which rules of the table fire on `port`, one fact per rule. */
  lemma TableFiring(serial: SerialPorts, port: bv16)
    ensures var t := Table(serial);
      && t[0].Fires(port) == Fires(serial, 0, port)
      && t[1].Fires(port) == Fires(serial, 1, port)
      && t[2].Fires(port) == Fires(serial, 2, port)
      && t[3].Fires(port) == Fires(serial, 3, port)
      && t[4].Fires(port) == Fires(serial, 4, port)
      && t[5].Fires(port) == Fires(serial, 5, port)
      && t[6].Fires(port) == Fires(serial, 6, port)
      && t[7].Fires(port) == Fires(serial, 7, port)
      && t[8].Fires(port) == Fires(serial, 8, port)
      && t[9].Fires(port) == Fires(serial, 9, port)
      && t[10].Fires(port) == Fires(serial, 10, port)
  {
    FiringOfTable(serial, port, 0);
    FiringOfTable(serial, port, 1);
    FiringOfTable(serial, port, 2);
    FiringOfTable(serial, port, 3);
    FiringOfTable(serial, port, 4);
    FiringOfTable(serial, port, 5);
    FiringOfTable(serial, port, 6);
    FiringOfTable(serial, port, 7);
    FiringOfTable(serial, port, 8);
    FiringOfTable(serial, port, 9);
    FiringOfTable(serial, port, 10);
  }

  /** No PCI port is a legacy single port, in the generic legacy range or a disk controller port. */
  lemma PciRangeDisjoint(serial: SerialPorts, port: bv16)
    requires Fires(serial, 7, port)
    ensures !Fires(serial, 8, port) && !Fires(serial, 9, port) && !Fires(serial, 10, port)
  {
  }

  /**
   * Whether rule `j` of the table fires, stated without the table. It adds
   * nothing to the model: it names each rule's test as a ground fact so that
   * `TableFiring` and `Unrolled` need not unfold `Table` and `AnyHits`.
   */
  predicate Fires(serial: SerialPorts, j: nat, port: bv16) {
    if j == 0 then InSerialRange(serial, port)
    else if j == 1 then port == serial.tx
    else if j == 2 then MaskMatch(port, RtcIoBase, RtcIoMask)
    else if j == 3 then MaskMatch(port, Ps2IoBase, Ps2IoMask)
    else if j == 4 then MaskMatch(port, Dma2IoBase, Dma2IoMask)
    else if j == 5 then MaskMatch(port, KbcIoBase, KbcIoMask)
    else if j == 6 then MaskMatch(port, ParallelPrinterIoBase, ParallelPrinterIoMask)
                        || MaskMatch(port, ParallelPrinter2IoBase, ParallelPrinter2IoMask)
    else if j == 7 then MaskMatch(port, PciIoBase, PciIoMask)
    else if j == 8 then port in LegacyExactPorts
    else if j == 9 then MaskMatch(port, Upw48IoBase, Upw48IoMask)
    else MaskMatch(port, Hdc1IoBase, Hdc1IoMask) || MaskMatch(port, Hdc2IoBase, Hdc2IoMask)
  }

  lemma FiringOfTable(serial: SerialPorts, port: bv16, j: nat)
    requires j < |Table(serial)|
    ensures Table(serial)[j].Fires(port) == Fires(serial, j, port)
  {
    var ms := Table(serial)[j].matchers;
    if j == 6 || j == 10 {
      AnyHitsOfPair(ms[0], ms[1], port);
      assert ms == [ms[0], ms[1]];
    } else if j == 8 {
      AnyHitsOfPair(ms[2], ms[3], port);
      assert ms[1..][1..] == [ms[2], ms[3]];
      assert AnyHits(ms, port)
          == (port == 0x0510 || port == 0x0511 || AnyHits(ms[1..][1..], port));
    } else {
      assert |ms| == 1 && ms[1..] == [];
      assert !AnyHits(ms[1..], port);
    }
  }

  lemma AnyHitsOfPair(a: Matcher, b: Matcher, p: bv16)
    ensures AnyHits([a, b], p) == (a.Hits(p) || b.Hits(p))
  {
    assert [a, b][1..] == [b];
    assert [b][1..] == [];
    assert !AnyHits([b][1..], p);
  }
}
