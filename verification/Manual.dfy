/** The command interface as a reader of the wire sees it (section 8.4 of DSP0222 with the choices of ncsi.c).
    Everything here is written in raw bytes and numbers and uses of the other modules their data types only; Compliance
    and Answers prove that the responder behaves like this, and the whole-run theorems are stated in these terms. */
module Manual {
  import opened Types
  import opened Wire
  import opened Protocol

  function Word(f: seq<Byte>, at: nat): U32
    requires at + 4 <= |f|
  {
    (f[at] as int) * 0x100_0000 + (f[at + 1] as int) * 0x1_0000 + (f[at + 2] as int) * 0x100 + f[at + 3] as int
  }

  // ---- Which frames are answered ------------------------------------------------------------

  /** At least 30 bytes arrived and the EtherType is 0x88F8. */
  predicate ControlFrame(e: Event) {
    e.Rx? && 30 <= e.len <= |e.buf| && e.buf[12] == 0x88 && e.buf[13] == 0xF8
  }

  /** Three bits of package and five of channel; channel 31 means the whole package. */
  predicate ForUs(d: Device, f: seq<Byte>)
    requires |f| >= 30
  {
    f[19] / 32 == d.package && (f[19] % 32 == 31 || f[19] % 32 == d.channel)
  }

  /** The low twelve bits of bytes 20 and 21. */
  function PayloadLength(f: seq<Byte>): nat
    requires |f| >= 30
  {
    (f[20] as int) % 16 * 256 + f[21] as int
  }

  /** Commands with a table entry; 0x0F is a hole. */
  predicate KnownCommand(c: Byte) { c <= 0x1A && c != 0x0F }

  /** Known commands the firmware answers as unsupported. */
  predicate Unimplemented(c: Byte) { c == 0x12 || c == 0x13 || c == 0x14 || 0x17 <= c <= 0x1A }

  function RequiredLength(c: Byte): nat {
    if c in {0x08, 0x09, 0x0B, 0x0E} then 8
    else if c in {0x01, 0x04, 0x05, 0x0C, 0x10, 0x12, 0x14} then 4
    else 0
  }

  /** A VLAN filter is enabled for VLAN 0. */
  predicate BadVlan(f: seq<Byte>) { |f| >= 38 && f[37] % 2 == 1 && f[32] % 16 == 0 && f[33] == 0 }

  /** Response and reason code; the first match wins. Clear Initial State (0x00) is exempt from the channel and
      readiness rules, Select and Deselect Package (0x01, 0x02) from both when sent to the whole package. */
  function Verdict(d: Device, f: seq<Byte>): (U16, U16)
    requires |f| >= 30
  {
    var c, toPackage := f[18], f[19] % 32 == 31;
    if !KnownCommand(c) then (3, 0x7FFF)
    else if PayloadLength(f) != RequiredLength(c) then (1, 5)
    else if c > 0x02 && toPackage then (1, 2)
    else if c != 0x00 && !toPackage && !d.port.ready then (1, 1)
    else if Unimplemented(c) then (3, 0x7FFF)
    else if c == 0x0B && BadVlan(f) then (1, 0x0B07)
    else (0, 0)
  }

  // ---- What a command does ------------------------------------------------------------------

  /** The buffer holds the payload bytes the command uses. */
  predicate Complete(c: Byte, f: seq<Byte>) {
    |f| >= 30 && (c in {0x08, 0x09, 0x0B, 0x0E} ==> |f| >= 38) && (c in {0x0C, 0x10} ==> |f| >= 34)
  }

  /** The command a frame gets executed, if any. */
  function AcceptedFrame(d: Device, f: seq<Byte>): Option<Byte>
    requires |f| >= 30
  {
    var c, channel := f[18], f[19] % 32;
    if ForUs(d, f) && KnownCommand(c) && PayloadLength(f) == RequiredLength(c)
       && (c == 0x00 || (c <= 0x02 && channel == 31) || (channel == d.channel && d.port.ready))
    then Some(c) else None
  }

  /** The command an input gets executed. */
  function Accepted(d: Device, x: Input): (c: Option<Byte>)
    ensures c.Some? ==> x.event.Rx? && Complete(c.value, x.event.buf)
  {
    if ControlFrame(x.event) then AcceptedFrame(d, x.event.buf) else None
  }

  /** Bit 2 of the PHY's basic status register; a negative value is a failed read. */
  predicate ReportsLink(register: I32) { register >= 0 && register % 8 >= 4 }

  /** MAC numbers count from 1, and 0 means the first slot too. */
  function Slot(f: seq<Byte>): nat
    requires |f| >= 38
  {
    if f[36] == 0 then 0 else f[36] - 1
  }

  /** The filter a Set MAC Address frame describes. */
  function FilterIn(f: seq<Byte>): MacFilter
    requires |f| >= 38
  {
    MacFilter(f[37] >= 128, f[37] % 8, f[30..36])
  }

  /** Some slot is an enabled unicast filter (address type 0) for this address. */
  predicate KnownSource(p: Port, source: Mac) {
    exists i :: 0 <= i < 8 && p.filters[i].enabled && p.filters[i].addressType == 0 && p.filters[i].mac == source
  }

  /** Reset Channel and NCSI_init leave AEN settings, link settings, the cached link, the filters' addresses and the
      drop counter. */
  function AfterReset(p: Port): Port {
    Port(false, false, false, false, p.aenMcId, p.aenControl, p.linkSettings, p.oemLinkSettings, 0,
         seq(8, i requires 0 <= i < 8 => MacFilter(false, p.filters[i].addressType, p.filters[i].mac)),
         p.link, 0, 0, 0, 0, p.netDropped)
  }

  /** The channel record after command c, apart from the statistics. */
  function Record(p: Port, c: Byte, f: seq<Byte>, hal: Hal): Port
    requires Complete(c, f)
  {
    if c == 0x00 then p.(ready := true)
    else if c == 0x03 then p.(enabled := true)
    else if c == 0x04 then p.(enabled := false)
    else if c == 0x05 then AfterReset(p)
    else if c == 0x06 then p.(txPassthrough := true)
    else if c == 0x07 then p.(txPassthrough := false)
    else if c == 0x08 then p.(aenMcId := f[33], aenControl := Word(f, 34))
    else if c == 0x09 then p.(linkSettings := Word(f, 30), oemLinkSettings := Word(f, 34))
    else if c == 0x0A then p.(link := RefreshedLink(p.link, hal.phyRegister))
    else if c == 0x0C then p.(vlanEnabled := f[33] != 0)
    else if c == 0x0D then p.(vlanEnabled := false)
    else if c == 0x0E then if Slot(f) < 8 then p.(filters := p.filters[Slot(f) := FilterIn(f)]) else p
    else if c == 0x10 then p.(broadcastSettings := Word(f, 30))
    else if c == 0x11 then p.(broadcastSettings := 0)
    else p
  }

  function RefreshedLink(l: LinkCache, register: I32): LinkCache {
    if register >= 0 then LinkCache(ReportsLink(register), ReportsLink(register), true, l.autonegComplete)
    else LinkCache(l.up, l.hcd, true, l.autonegComplete)
  }

  /** The hardware calls command c makes before it is answered. */
  function Orders(p: Port, c: Byte, f: seq<Byte>, hal: Hal): seq<HalCall>
    requires Complete(c, f)
  {
    if c == 0x03 then [InitPort(false)]
    else if c == 0x05 then [GetPhy, ResetPhy(hal.phy)]
    else if c == 0x0A then
      [GetPhy, ReadPhy(hal.phy, 1)] + LinkOrders(RefreshedLink(p.link, hal.phyRegister).up, hal.linkUp)
    else if c == 0x0E then [SetMacAddr((f[30] as int) * 256 + f[31] as int, Word(f, 32), Slot(f), f[37] >= 128)]
    else []
  }

  /** A link that is down is looked up in the driver, and kicked if the driver agrees. */
  function LinkOrders(up: bool, driverUp: bool): seq<HalCall> {
    if up then [] else if driverUp then [IsLinkUp] else [IsLinkUp, ResetLink]
  }

  // ---- What is answered ---------------------------------------------------------------------

  /** The link status an answer reports: bits 0 and 1 for a link that is up, bit 5 for autonegotiation. */
  function LinkByte(up: bool): Byte { if up then 0x23 else 0x20 }

  function High(v: U16): Byte { v / 256 }
  function Low(v: U16): Byte { v % 256 }

  function LinkBytes(up: bool): seq<Byte> {
    [0, 0, 0, LinkByte(up), 0, 0, 0, 0, 0, 0, 0, 0]
  }

  /** NC-SI version 1.2.0 in BCD, then the name "NCSI" padded with blanks. */
  function NameBytes(): seq<Byte> {
    [0xF1, 0xF2, 0xF0, 0, 0, 0, 0, 0, 0x4E, 0x43, 0x53, 0x49, 32, 32, 32, 32, 32, 32, 32, 32]
  }

  function IdBytes(b: Board): seq<Byte> {
    [0, b.fwMajor, b.fwMinor, b.fwPatch,
     High(b.pciDevice), Low(b.pciDevice), High(b.pciVendor), Low(b.pciVendor),
     High(b.pciSubDevice), Low(b.pciSubDevice), High(b.pciSubVendor), Low(b.pciSubVendor)]
  }

  function MakerBytes(b: Board): seq<Byte> {
    [High(b.manufacturer / 65536), Low(b.manufacturer / 65536),
     High(b.manufacturer % 65536), Low(b.manufacturer % 65536)]
  }

  function VersionBytes(b: Board): seq<Byte> { NameBytes() + IdBytes(b) + MakerBytes(b) }

  function CapabilityBytes(b: Board): seq<Byte> {
    [0, 0, 0, 0, 0, 0, 0, 0x0F, 0, 0, 0, 0, 0, 0, 0, 0, 0, 0, 0, 7,
     1, 1, 1, 1, 0, 0, 7, b.channelCount]
  }

  /** The payload after the codes. */
  function BodyBytes(b: Board, c: Byte, code: U16, linkUp: bool): seq<Byte> {
    if code != 0 then []
    else if c == 0x0A then LinkBytes(linkUp)
    else if c == 0x15 then VersionBytes(b)
    else if c == 0x16 then CapabilityBytes(b)
    else []
  }

  /** What a receiver reads in that payload. */
  function BodyFields(b: Board, c: Byte, code: U16, linkUp: bool): Body {
    if code != 0 then NoBody
    else if c == 0x0A then LinkBody(LinkByte(linkUp), 0, 0)
    else if c == 0x15 then
      VersionBody(0xF1, 0xF2, 0xF0, 0, 0, [0x4E, 0x43, 0x53, 0x49, 32, 32, 32, 32, 32, 32, 32, 32],
                  (b.fwMajor as int) * 65536 + (b.fwMinor as int) * 256 + b.fwPatch as int,
                  b.pciDevice, b.pciVendor, b.pciSubDevice, b.pciSubVendor, b.manufacturer)
    else if c == 0x16 then CapabilitiesBody(0, 15, 0, 0, 7, 1, 1, 1, 1, 7, b.channelCount)
    else NoBody
  }

  /** Everything before the checksum: broadcast addresses, EtherType, the request's instance and channel, its type with
      bit 7 set, the payload length, the codes and the body. */
  function Packet(b: Board, f: seq<Byte>, code: U16, reason: U16, linkUp: bool): seq<Byte>
    requires |f| >= 30
  {
    var body := BodyBytes(b, f[18], code, linkUp);
    [0xFF, 0xFF, 0xFF, 0xFF, 0xFF, 0xFF, 0xFF, 0xFF, 0xFF, 0xFF, 0xFF, 0xFF, 0x88, 0xF8]
    + [0, 1, 0, f[17], if f[18] < 128 then f[18] + 128 else f[18], f[19], 0, 4 + |body|, 0, 0, 0, 0, 0, 0, 0, 0]
    + [High(code), Low(code), High(reason), Low(reason)] + body
  }

  /** The frame on the wire: a packet, four checksum bytes, and zeros up to the shortest Ethernet frame. */
  predicate Framed(sent: seq<Byte>, packet: seq<Byte>) {
    |packet| + 4 <= |sent| && |sent| == (if |packet| + 4 < 60 then 60 else |packet| + 4)
    && sent[..|packet|] == packet
    && forall i :: |packet| + 4 <= i < |sent| ==> sent[i] == 0
  }

  /** Where the checksum of each layout lies, and how long its frame is. */
  function FieldAt(k: Kind): nat { match k case Plain => 34 case Link => 46 case Capabilities => 62 case Version => 70 }

  function FrameLength(k: Kind): nat {
    match k case Plain => 60 case Link => 60 case Capabilities => 66 case Version => 74
  }
}
