# Port-I/O exit dispatcher of a minimal KVM monitor

This project models `io_handle`, the handler a small KVM-based machine monitor
calls whenever the guest executes a port-I/O instruction. The handler gets
the trapped access: its direction (In for a guest read, Out for a guest
write), operand size, 16-bit port, repeat count, and the shared data area of
the exit. A first-match-wins chain of exact-port and `(port & mask) == base`
tests picks one of these handlers:

- absorb the access (the serial base range, the secondary DMA controller, the
  keyboard controller, both parallel printers, four single legacy ports, a
  generic legacy range and both disk controllers);
- forward it to the serial collaborator (the transmit port);
- drive the real-time clock index/data pair (0x70/0x71);
- answer PS/2 system control port A (0x92, inside the 0x90..0x9f range);
- drive the PCI configuration address/data pair (0xcf8/0xcfc).

Any other port is tolerated: nothing happens and nothing fails. Two registers
persist across calls: the RTC index and the latched PCI configuration
address.

Files:

- `port_map.dfy` (module `PortMap`) has the port constants and the chain
  `Classify`. It also has a second definition of the chain: an ordered table
  of `Exact`/`Masked` matchers evaluated by `FirstMatch`. Lemmas relate the
  two and state each mask test as a plain port interval.
- `little_endian.dfy` (module `LittleEndian`) has the x86 byte order of the
  16-bit store and the 32-bit load on the data area, with their round trips.
- `io_handle.dfy` (module `IoHandle`) has `Step`, the meaning of one call on
  values, and `Run`, a sequence of calls. It also has the class `Dispatcher`.
  Its fields `rtcIndex: bv8` and `pciConfigAddr: bv32` are the two persistent
  registers, and its method `Handle` runs the chain in place on an
  `array<bv8>`. `Handle` is proved to compute exactly what `Step` says.
- `io_properties.dfy` (module `IoProperties`) has the properties of `Step`
  and `Run`, device by device. It also has concrete exchanges a booting guest
  performs, and two client methods that drive the class.

The serial collaborator's ports (`SERIAL_IO_BASE`, `SERIAL_IO_MASK`,
`SERIAL_IO_TX`) are defined in `serial.h`, which is not part of this model. The
dispatcher therefore takes them as a `SerialPorts` value at construction.
Every device property that could be shadowed by the serial rules, which are
tested first, requires `!SerialClaims(serial, port)`.

Notes on the code as written, which the model follows:

- The PCI address latch takes effect on an Out of any operand size, not only
  on 4-byte writes. It always reads four bytes of the data area, so `Handle`
  and `Step` require an area of at least four bytes. KVM's area is part of a
  page.
- PS/2 matches the whole range 0x90..0x9f. The size and count guard applies
  only to port 0x92.
- The PCI range is tested before the legacy single ports, the generic legacy
  range and the disk controllers. `PciPositionImmaterial` proves that testing
  it after them gives the same result, because the ranges are disjoint.
- The RTC index is masked with `0x7f`. Writing 0x8f to port 0x70 therefore
  selects the shutdown status register, just as writing 0x0f does.
- `pci_config_addr` has static storage, so it starts at zero like `rtc_index`.
- The code keeps both registers as function-level statics. Here they are the
  fields of one `Dispatcher` object. For the single dispatcher the code has,
  the two are the same.

## Model

| member | source | states |
|---|---|---|
| `PortMap.Classify` | 03_floppy/io.c:108-183 | a port in the serial base range is only ever absorbed, a forwarded port is the transmit port, and the RTC, PS/2 and PCI handlers run only for a port their base and mask admit; the full characterisation is `ClassifyByInterval` and `ClassifyIsFirstMatch` |
| `PortMap.ClassifyByInterval` | 03_floppy/io.c:108-183 | outside the serial ports, a port goes to the RTC handler iff it is in 0x70..0x7f, to PS/2 iff in 0x90..0x9f, to PCI iff in 0xcf8..0xcff, is absorbed iff it is one of the stub intervals or single ports, and is unmatched iff it is in none of them; it is never forwarded |
| `PortMap.SerialRangeFirst` | 03_floppy/io.c:108-109 | a port in the serial base range is absorbed, whatever later rule it would match |
| `PortMap.SerialForwardedIff` | 03_floppy/io.c:108-111 | an access is forwarded to the serial collaborator iff its port is the transmit port and lies outside the serial base range |
| `PortMap.FirstMatch` | 03_floppy/io.c:108-183 | first-match-wins evaluation of an ordered rule table: if no rule fires the result is Unmatched; otherwise it is the outcome of the first rule that fires |
| `PortMap.ClassifyIsFirstMatch` | 03_floppy/io.c:108-183 | the dispatch chain is exactly the first-match evaluation of its eleven-rule table, in the code's order |
| `PortMap.PciPositionImmaterial` | 03_floppy/io.c:153-183 | moving the PCI rule behind the legacy single ports, the generic legacy range and the disk controllers gives the same outcome for every port |
| `PortMap.PciRangeDisjoint` | 03_floppy/io.c:176-183 | no PCI configuration port is a legacy single port, a generic legacy port or a disk controller port |
| `LittleEndian.Value32OfBytes32` | 03_floppy/io.c:160 | a 32-bit value stored little-endian and loaded back is unchanged |
| `LittleEndian.Value32` | 03_floppy/io.c:160 | the 32-bit little-endian load of four bytes keeps every byte: storing the loaded value back gives the same four bytes |
| `LittleEndian.Value16OfBytes16` | 03_floppy/io.c:167 | a 16-bit value stored little-endian and loaded back is unchanged |
| `LittleEndian.Value16` | 03_floppy/io.c:167 | every two bytes are the 16-bit little-endian store of the value they hold |
| `LittleEndian.Store16` | 03_floppy/io.c:167 | a 16-bit store through the start of the area keeps its length, reads back as the stored value, and leaves every byte from index 2 on as it was |
| `IoHandle.RtcRead` | 03_floppy/io.c:122-131 | a read of the RTC data port keeps the area's length, touches only the first byte, and changes nothing unless the index is the shutdown-status or the century register; the two answers are in `RtcDataRead` |
| `IoHandle.RtcAccess` | 03_floppy/io.c:112-135 | the RTC handler keeps the PCI latch and the area's length; it changes the index only on an Out to 0x70, and then to a value below 0x80; it writes only the first byte, and only on an In on 0x71 |
| `IoHandle.Ps2Access` | 03_floppy/io.c:136-145 | the PS/2 handler changes no register and keeps the area's length; it writes only the first byte, and only on a single-byte, non-repeated In on 0x92 |
| `IoHandle.PciAccess` | 03_floppy/io.c:153-175 | the PCI handler keeps the RTC index and the area's length; it changes the latch only on an Out to 0xcf8; it writes only the first two bytes, and only on a 16-bit In on 0xcfc |
| `IoHandle.Step` | 03_floppy/io.c:93-191 | one call yields the outcome the dispatch chain picks for the port, and keeps the data area's length |
| `IoHandle.Dispatcher.constructor` | 03_floppy/io.c:113 | a new dispatcher has both registers at zero, which satisfies the seven-bit invariant of the RTC index |
| `IoHandle.Dispatcher.Handle` | 03_floppy/io.c:93-191 | the registers, the data area and the outcome after the call are exactly those `Step` gives for the old registers and the old area; the RTC index stays below 0x80; an Out leaves the area unchanged; bytes from index 2 on are never written (apart from what the serial collaborator writes after a forwarded access, which is not modelled) |
| `IoProperties.SerialRangeIsInert` | 03_floppy/io.c:108-109 | an access in the serial base range changes neither register nor the data area and is not forwarded |
| `IoProperties.SerialForwarding` | 03_floppy/io.c:108-111 | an access is forwarded iff its port is the transmit port outside the serial base range; the dispatcher itself changes no register and no byte when it forwards (what the serial collaborator then writes is not modelled) |
| `IoProperties.RtcIndexLatch` | 03_floppy/io.c:114-119 | an Out on 0x70 sets the RTC index to the first byte masked with 0x7f, keeps the PCI latch, and leaves the data area unchanged |
| `IoProperties.RtcDataRead` | 03_floppy/io.c:120-131 | an In on 0x71 changes no register; the first byte becomes 0x00 when the index is 0x0f, 0x08 when it is 0x34, and is left as it was otherwise; the other bytes are untouched |
| `IoProperties.RtcRangeOtherAccessesInert` | 03_floppy/io.c:112-135 | every other access in 0x70..0x7f (In on 0x70, Out on 0x71, ports 0x72..0x7f) changes nothing |
| `IoProperties.StepKeepsRtcIndexBelow0x80` | 03_floppy/io.c:113-119 | a call keeps the RTC index below 0x80 |
| `IoProperties.RunKeepsRtcIndexBelow0x80` | 03_floppy/io.c:113-119 | starting below 0x80, the RTC index stays below 0x80 after any sequence of calls |
| `IoProperties.RtcLatchThenRead` | 03_floppy/io.c:114-131 | writing a byte v to 0x70 and then reading 0x71 answers 0x00 if v & 0x7f is 0x0f, 0x08 if it is 0x34, and leaves the byte unchanged otherwise |
| `IoProperties.Ps2Range` | 03_floppy/io.c:136-145 | every port in 0x90..0x9f goes to the PS/2 handler, which changes no register; the only access that writes is a single-byte, non-repeated In on 0x92, which sets the first byte to 0x00 |
| `IoProperties.PciAddressLatch` | 03_floppy/io.c:157-162 | an Out on 0xcf8 of any size latches the first four bytes, read little-endian, as the PCI address, keeps the RTC index, and leaves the data area unchanged |
| `IoProperties.PciDataRead` | 03_floppy/io.c:164-169 | a 16-bit In on 0xcfc stores 0x8000 little-endian (bytes 0x00, 0x80), changes no register, and leaves bytes from index 2 on untouched |
| `IoProperties.DataIgnoresPciAddress` | 03_floppy/io.c:164-169 | what a call writes to the data area never depends on the latched PCI address |
| `IoProperties.PciRangeOtherAccessesInert` | 03_floppy/io.c:153-175 | every other access in 0xcf8..0xcff (In on 0xcf8, Out on 0xcfc, In on 0xcfc of width other than 2, ports 0xcf9..0xcfb and 0xcfd..0xcff) changes nothing |
| `IoProperties.PciLatchThenRead` | 03_floppy/io.c:157-169 | after any address is latched, a 16-bit read of 0xcfc yields the bytes 0x00, 0x80 followed by the rest of the area |
| `IoProperties.StubPortsInert` | 03_floppy/io.c:146-183 | DMA2 0xc0..0xff, KBC 0x60..0x6f, printers 0x378..0x37f and 0x278..0x27f, the ports 0x510, 0x511, 0x0d and 0x3e9, the legacy range 0x200..0x2ff, and the disk controllers 0x1f0..0x1ff and 0x170..0x177 are absorbed without writing a byte or changing a register |
| `IoProperties.UnmatchedInert` | 03_floppy/io.c:176-188 | outside the serial ports, a port in no device range is unmatched and the call changes nothing |
| `IoProperties.UnmatchedHasNoEffect` | 03_floppy/io.c:184-188 | whenever no rule matches, the call changes neither register nor the data area |
| `IoProperties.StepFrame` | 03_floppy/io.c:93-191 | a call writes only on an In, only the first two bytes, only in the RTC, PS/2 and PCI handlers, and the second byte only in the PCI handler (apart from what the serial collaborator writes after a forwarded access, which is not modelled) |
| `IoProperties.RegistersChangeOnlyByLatch` | 03_floppy/io.c:113-160 | the RTC index changes only on an Out to 0x70, and the PCI latch only on an Out to 0xcf8 |
| `IoProperties.RunWithoutIndexWriteKeepsIndex` | 03_floppy/io.c:113-119 | a sequence of calls with no Out on 0x70 keeps the RTC index |
| `IoProperties.RunWithoutAddressWriteKeepsAddress` | 03_floppy/io.c:156-162 | a sequence of calls with no Out on 0xcf8 keeps the PCI latch |
| `IoProperties.ShutdownStatusExchange` | 03_floppy/io.c:114-126 | selecting index 0x0f and then reading 0x71 turns 0xaa into 0x00 |
| `IoProperties.CenturyExchange` | 03_floppy/io.c:114-130 | selecting index 0x34 and then reading 0x71 turns 0xaa into 0x08 |
| `IoProperties.PciProbeExchange` | 03_floppy/io.c:157-169 | latching the bytes 00 00 00 80 gives address 0x80000000; a then 16-bit read of 0xcfc turns ff ff into 00 80 |
| `IoProperties.ControlPortAExchange` | 03_floppy/io.c:136-140 | a byte read of 0x92 turns 0xff into 0x00 |
| `IoProperties.KeyboardControllerExchange` | 03_floppy/io.c:148-149 | a byte read of 0x60 returns the area as it was |

## Left out

- The diagnostic output is not modelled: `dump_io_access_begin` and `dump_io_access_end` (03_floppy/io.c:41-91), the `DEBUG_PRINT` calls (03_floppy/io.c:95-99) and the floppy-controller `printf` on port 0x3f2 (03_floppy/io.c:105-106). It changes neither the data area nor a register.
- `serial_handle_io` belongs to the serial module and is not part of this model. `Handle` returns `SerialForwarded`, and what the collaborator then does to the data area is not modelled.
- `IoProperties.StepFrame`: its frame covers the dispatcher's own writes only. `serial_handle_io` (03_floppy/io.c:110-111) receives the same data area and may write it on a forwarded In; that write is not modelled.
- `IoHandle.Dispatcher.Handle`: its frame (`dir == Out` leaves the area unchanged, bytes from index 2 on are kept) is stated for the dispatcher alone; on a forwarded access the serial collaborator may still write the area, which is not modelled.
- The values of `SERIAL_IO_BASE`, `SERIAL_IO_MASK` and `SERIAL_IO_TX` (serial.h) are not part of this model. They are a constructor parameter.
- The `kvm_run` layout and the `data_offset` arithmetic are not modelled. The data area is an array that starts at the data offset.
- The `skip_io` counter is not modelled. It is local and never read; the `Skipped` outcome takes its place.
- Sharing of the static registers between several virtual CPUs or machines is not modelled. This is concurrency, and the model is sequential.
- The commented-out `assert(0, ...)` branches (03_floppy/io.c:141-145, 184-188) are not modelled. They are dead code.
- The field widths of `size` (8-bit) and `count` (32-bit) are not fixed: both are `nat`. The code only compares them with 1 and 2.
