/** The responder (ncsi.c) as a function from state, input and hardware answers to new state and hardware calls.
    The classes of Responder are proved to compute these functions; the whole-run theorems are about them. */
module Protocol {
  import opened Types
  import opened Wire
  import Checksum

  const MAX_MAC_FILTERS: nat := 8     // NCSI_MAX_MAC_FILTERS
  const CHANNEL_PACKAGE: Byte := 0x1F // CHANNEL_ID_PACKAGE
  const TABLE_SIZE: nat := 0x1B       // ARRAY_ELEMENTS(gNCSIHandlers)

  // ---- State (Network.h) --------------------------------------------------------------------

  datatype MacFilter = MacFilter(enabled: bool, addressType: Byte, mac: Mac)

  type Filters = s: seq<MacFilter> | |s| == 8 witness seq(8, _ => MacFilter(false, 0, seq(6, _ => 0)))

  datatype LinkCache = LinkCache(up: bool, hcd: bool, autonegEnabled: bool, autonegComplete: bool)

  datatype Port = Port(
    ready: bool, enabled: bool, txPassthrough: bool, vlanEnabled: bool,
    aenMcId: Byte, aenControl: U32, linkSettings: U32, oemLinkSettings: U32, broadcastSettings: U32,
    filters: Filters, link: LinkCache,
    ncsiRx: U32, ncsiTx: U32, netRx: U32, netTx: U32, netDropped: U32)

  datatype Device = Device(package: Byte, channel: Byte, selected: bool, checksumOn: bool, port: Port, buffers: Buffers)

  const ZERO_MAC: Mac := [0, 0, 0, 0, 0, 0]
  const ZERO_FILTER := MacFilter(false, 0, ZERO_MAC)
  const ZERO_FILTERS: Filters := [ZERO_FILTER, ZERO_FILTER, ZERO_FILTER, ZERO_FILTER,
                                  ZERO_FILTER, ZERO_FILTER, ZERO_FILTER, ZERO_FILTER]
  const ZERO_PORT := Port(false, false, false, false, 0, 0, 0, 0, 0, ZERO_FILTERS,
                          LinkCache(false, false, false, false), 0, 0, 0, 0, 0)

  /** Static storage at power-up. */
  function Boot(board: Board): Device {
    Device(0, 0, false, board.checksumDefault, ZERO_PORT, InitialBuffers(board))
  }

  // ---- Inputs -------------------------------------------------------------------------------

  /** The hardware's answers to the calls one step may make. */
  datatype Hal = Hal(txOk: bool, phy: Byte, phyRegister: I32, linkUp: bool, resetOk: bool, rxOk: bool)

  datatype HalCall =
    | TxFrame(bytes: seq<Byte>)
    | InitPort(force: bool)
    | GetPhy
    | ReadPhy(phy: Byte, register: Byte)
    | ResetPhy(phy: Byte)
    | IsLinkUp
    | ResetLink
    | SetMacAddr(high16: U16, low32: U32, index: U32, enable: bool)
    | PassthroughRx

  /** Rx: a received frame of the given length at the start of a receive buffer (ncsi_on_rx_frame).
      Poll: NCSI_handlePassthrough. Reload: NCSI_reload. SetChecksum: NCSI_SetComputeChecksum.
      Init: NCSI_init with the package and channel straps it reads. */
  datatype Event =
    | Rx(buf: seq<Byte>, len: nat)
    | Poll
    | Reload(force: bool)
    | SetChecksum(on: bool)
    | Init(package: Byte, channel: Byte)

  datatype RawInput = RawInput(event: Event, hal: Hal)

  /** A receive buffer holds the frame, and is long enough for the reads of the handler a control frame selects; what
      lies in it past the frame is arbitrary. Straps give a package in 0..7 and a channel other than the package-wide
      indicator. */
  predicate ValidEvent(e: Event) {
    match e
    case Rx(buf, len) => len <= |buf| && len < WRAP32 && (IsControl(e) ==> AlwaysReadable(buf))
    case Init(package, channel) => package < 8 && channel < CHANNEL_PACKAGE
    case _ => true
  }

  type Input = x: RawInput | ValidEvent(x.event) witness RawInput(Poll, Hal(false, 0, 0, false, false, false))

  predicate IsControl(e: Event) {
    e.Rx? && e.len >= HEADER_SIZE && e.len <= |e.buf| && Rd16(e.buf, 12) == ETHER_TYPE_NCSI
  }

  // ---- Dispatch table -----------------------------------------------------------------------

  datatype Handler =
    | ClearInitialState | SelectPackage | DeselectPackage
    | EnableChannel | DisableChannel | ResetChannel | EnableNetworkTx | DisableNetworkTx
    | AenEnable | SetLink | GetLinkStatus | SetVlanFilter | EnableVlan | DisableVlan
    | SetMacAddress | EnableBroadcastFilter | DisableBroadcastFilter
    | Unknown | GetVersionId | GetCapabilities

  datatype Entry = Entry(ignoreInit: bool, packageCommand: bool, payloadLength: nat, fn: Handler)

  /** gNCSIHandlers[]; the precondition is the size of the array. Entry 0x0F has no function. */
  function HandlerTable(i: nat): Option<Entry>
    requires i < TABLE_SIZE
  {
    if i == 0x00 then Some(Entry(true, false, 0, ClearInitialState))
    else if i == 0x01 then Some(Entry(false, true, 4, SelectPackage))
    else if i == 0x02 then Some(Entry(false, true, 0, DeselectPackage))
    else if i == 0x03 then Some(Entry(false, false, 0, EnableChannel))
    else if i == 0x04 then Some(Entry(false, false, 4, DisableChannel))
    else if i == 0x05 then Some(Entry(false, false, 4, ResetChannel))
    else if i == 0x06 then Some(Entry(false, false, 0, EnableNetworkTx))
    else if i == 0x07 then Some(Entry(false, false, 0, DisableNetworkTx))
    else if i == 0x08 then Some(Entry(false, false, 8, AenEnable))
    else if i == 0x09 then Some(Entry(false, false, 8, SetLink))
    else if i == 0x0A then Some(Entry(false, false, 0, GetLinkStatus))
    else if i == 0x0B then Some(Entry(false, false, 8, SetVlanFilter))
    else if i == 0x0C then Some(Entry(false, false, 4, EnableVlan))
    else if i == 0x0D then Some(Entry(false, false, 0, DisableVlan))
    else if i == 0x0E then Some(Entry(false, false, 8, SetMacAddress))
    else if i == 0x0F then None
    else if i == 0x10 then Some(Entry(false, false, 4, EnableBroadcastFilter))
    else if i == 0x11 then Some(Entry(false, false, 0, DisableBroadcastFilter))
    else if i == 0x12 then Some(Entry(false, false, 4, Unknown))
    else if i == 0x13 then Some(Entry(false, false, 0, Unknown))
    else if i == 0x14 then Some(Entry(false, false, 4, Unknown))
    else if i == 0x15 then Some(Entry(false, false, 0, GetVersionId))
    else if i == 0x16 then Some(Entry(false, false, 0, GetCapabilities))
    else Some(Entry(false, false, 0, Unknown))
  }

  /** The table entry for a command byte; the table is indexed only inside its bounds. */
  function Lookup(command: Byte): Option<Entry> {
    if command < TABLE_SIZE then HandlerTable(command) else None
  }

  predicate Addressed(d: Device, f: seq<Byte>)
    requires |f| >= HEADER_SIZE
  {
    var ch := ChannelIdOf(f) % 0x20;
    ChannelIdOf(f) / 0x20 == d.package && (ch == CHANNEL_PACKAGE || ch == d.channel)
  }

  datatype Decision =
    | Silent
    | Reject(code: U16, reason: U16, select: bool)
    | Execute(fn: Handler)

  const COMPLETE: U16 := 0
  const FAILED: U16 := 1
  const UNSUPPORTED: U16 := 3
  const NO_REASON: U16 := 0
  const INIT_REQUIRED: U16 := 1
  const INVALID_PARAM: U16 := 2
  const INVALID_LENGTH: U16 := 5
  const UNKNOWN_COMMAND: U16 := 0x7FFF
  const VLAN_TAG_INVALID: U16 := 0x0B07

  /** The decision tree of handleNCSIFrame. */
  function Decide(d: Device, f: seq<Byte>): Decision
    requires |f| >= HEADER_SIZE
  {
    var ch := ChannelIdOf(f) % 0x20;
    if !Addressed(d, f) then Silent
    else match Lookup(CommandOf(f))
      case None => Reject(UNSUPPORTED, UNKNOWN_COMMAND, false)
      case Some(h) =>
        if h.payloadLength != DeclaredLength(f) then Reject(FAILED, INVALID_LENGTH, false)
        else if (h.packageCommand && ch == CHANNEL_PACKAGE) || h.ignoreInit then Execute(h.fn)
        else if ch != d.channel then Reject(FAILED, INVALID_PARAM, false)
        else if !d.port.ready then Reject(FAILED, INIT_REQUIRED, true)
        else Execute(h.fn)
  }

  // ---- Which bytes are read -----------------------------------------------------------------

  /** How many payload bytes a handler reads. Select Package and Disable Channel read one and ignore its value. */
  function PayloadOf(h: Handler): nat {
    match h
    case SelectPackage => 4 case DisableChannel => 4 case EnableVlan => 4 case EnableBroadcastFilter => 4
    case AenEnable => 8 case SetLink => 8 case SetVlanFilter => 8 case SetMacAddress => 8
    case _ => 0
  }

  /** The buffer holds every byte that dispatching and handling this frame reads in this state. */
  predicate Readable(d: Device, f: seq<Byte>) {
    |f| >= HEADER_SIZE && (Decide(d, f).Execute? ==> |f| >= HEADER_SIZE + PayloadOf(Decide(d, f).fn))
  }

  /** The same in whatever state the frame is met. */
  predicate AlwaysReadable(f: seq<Byte>) {
    |f| >= HEADER_SIZE
    && match Lookup(CommandOf(f))
       case Some(h) => h.payloadLength == DeclaredLength(f) ==> |f| >= HEADER_SIZE + PayloadOf(h.fn)
       case None => true
  }

  // ---- Handlers -----------------------------------------------------------------------------

  function ResetFilters(s: Filters): Filters {
    seq(MAX_MAC_FILTERS, i requires 0 <= i < 8 => s[i].(enabled := false))
  }

  /** resetChannel: AEN and link settings, the cached link status and the drop counter survive, and the filter
      slots keep their addresses. */
  function ResetPort(p: Port): Port {
    p.(ready := false, enabled := false, txPassthrough := false, vlanEnabled := false, broadcastSettings := 0,
       filters := ResetFilters(p.filters), ncsiRx := 0, ncsiTx := 0, netRx := 0, netTx := 0)
  }

  function ZeroCounters(p: Port): Port { p.(ncsiRx := 0, ncsiTx := 0, netRx := 0, netTx := 0) }

  /** Set MAC Address numbers slots from 1; 0 also means the first slot. */
  function SlotIndex(macNumber: Byte): Byte { if macNumber > 0 then macNumber - 1 else macNumber }

  function MacOf(f: seq<Byte>): Mac requires |f| >= 38 { f[30..36] }
  function SlotOf(f: seq<Byte>): Byte requires |f| >= 38 { SlotIndex(f[36]) }
  function AddressTypeOf(f: seq<Byte>): Byte requires |f| >= 38 { f[37] % 8 }
  predicate EnableOf(f: seq<Byte>) requires |f| >= 38 { f[37] / 0x80 == 1 }

  function PackHigh(m: Mac): U16 { Be16(m[0], m[1]) }
  function PackLow(m: Mac): U32 { Be32(m[2], m[3], m[4], m[5]) }

  /** A successful read of the PHY status register reports this link state. */
  predicate PhyLinkUp(register: I32) { register >= 0 && register % 0x1_0000 / 4 % 2 == 1 }

  function ReadLink(l: LinkCache, register: I32): LinkCache {
    var seen := if register >= 0 then l.(up := PhyLinkUp(register), hcd := PhyLinkUp(register)) else l;
    seen.(autonegEnabled := true)
  }

  function Bit(b: bool): nat { if b then 1 else 0 }

  function LinkStatusWord(l: LinkCache): U32 {
    Bit(l.up) + Bit(l.hcd) * 2 + Bit(l.autonegEnabled) * 0x20 + Bit(l.autonegComplete) * 0x40
  }

  /** The change a handler makes to the channel before it answers. */
  function Effect(p: Port, h: Handler, f: seq<Byte>, hal: Hal): Port
    requires |f| >= HEADER_SIZE + PayloadOf(h)
  {
    match h
    case ClearInitialState => p.(ready := true)
    case EnableChannel => p.(enabled := true)
    case DisableChannel => p.(enabled := false)
    case ResetChannel => ResetPort(p)
    case EnableNetworkTx => p.(txPassthrough := true)
    case DisableNetworkTx => p.(txPassthrough := false)
    case AenEnable => p.(aenMcId := f[33], aenControl := Rd32(f, 34))
    case SetLink => p.(linkSettings := Rd32(f, 30), oemLinkSettings := Rd32(f, 34))
    case GetLinkStatus => p.(link := ReadLink(p.link, hal.phyRegister))
    case EnableVlan => p.(vlanEnabled := f[33] != 0)
    case DisableVlan => p.(vlanEnabled := false)
    case SetMacAddress =>
      if SlotOf(f) < MAX_MAC_FILTERS
      then p.(filters := p.filters[SlotOf(f) := MacFilter(EnableOf(f), AddressTypeOf(f), MacOf(f))])
      else p
    case EnableBroadcastFilter => p.(broadcastSettings := Rd32(f, 30))
    case DisableBroadcastFilter => p.(broadcastSettings := 0)
    case _ => p
  }

  /** The hardware calls a handler makes before it answers. */
  function EffectCalls(p: Port, h: Handler, f: seq<Byte>, hal: Hal): seq<HalCall>
    requires |f| >= HEADER_SIZE + PayloadOf(h)
  {
    match h
    case EnableChannel => [InitPort(false)]
    case ResetChannel => [GetPhy, ResetPhy(hal.phy)]
    case GetLinkStatus =>
      [GetPhy, ReadPhy(hal.phy, 1)]
      + (if ReadLink(p.link, hal.phyRegister).up then [] else if hal.linkUp then [IsLinkUp] else [IsLinkUp, ResetLink])
    case SetMacAddress => [SetMacAddr(PackHigh(MacOf(f)), PackLow(MacOf(f)), SlotOf(f), EnableOf(f))]
    case _ => []
  }

  function PlainAnswer(f: seq<Byte>, code: U16, reason: U16): Answer
    requires |f| >= HEADER_SIZE
  {
    Answer(Plain, InstanceOf(f), ChannelIdOf(f), ResponseType(CommandOf(f)), code, reason, 0, 0, 0)
  }

  /** The answer of a handler; p is the channel after its effect. */
  function HandlerAnswer(p: Port, h: Handler, f: seq<Byte>): Answer
    requires |f| >= HEADER_SIZE + PayloadOf(h)
  {
    match h
    case GetLinkStatus => PlainAnswer(f, COMPLETE, NO_REASON).(kind := Link, status := LinkStatusWord(p.link))
    case GetVersionId => PlainAnswer(f, COMPLETE, NO_REASON).(kind := Version)
    case GetCapabilities => PlainAnswer(f, COMPLETE, NO_REASON).(kind := Capabilities)
    case Unknown => PlainAnswer(f, UNSUPPORTED, UNKNOWN_COMMAND)
    case SetVlanFilter =>
      if f[37] % 2 == 1 && Rd16(f, 32) % 0x1000 == 0 then PlainAnswer(f, FAILED, VLAN_TAG_INVALID)
      else PlainAnswer(f, COMPLETE, NO_REASON)
    case _ => PlainAnswer(f, COMPLETE, NO_REASON)
  }

  // ---- Steps --------------------------------------------------------------------------------

  datatype Outcome = Outcome(dev: Device, calls: seq<HalCall>)

  function Seal(on: bool, k: Kind, b: Buffer): Buffer {
    if on then Checksum.Sealed(b, REGION_START, ChecksumAt(k) - REGION_START, ChecksumAt(k)) else b
  }

  /** Lay the answer out in its static buffer, seal it if checksums are on, and send it. */
  function Transmit(d: Device, a: Answer, hal: Hal): Outcome {
    var b := Seal(d.checksumOn, a.kind, Stamp(d.buffers.Get(a.kind), a));
    Outcome(d.(buffers := d.buffers.Set(a.kind, b),
               port := if hal.txOk then d.port.(ncsiTx := Bump(d.port.ncsiTx)) else d.port),
            [TxFrame(b[..TxLen(a.kind)])])
  }

  function RunHandler(d: Device, h: Handler, f: seq<Byte>, hal: Hal): Outcome
    requires |f| >= HEADER_SIZE + PayloadOf(h)
  {
    var p := Effect(d.port, h, f, hal);
    var sent := Transmit(d.(port := p), HandlerAnswer(p, h, f), hal);
    Outcome(if h == SelectPackage then sent.dev.(selected := true)
            else if h == DeselectPackage then sent.dev.(selected := false)
            else sent.dev,
            EffectCalls(d.port, h, f, hal) + sent.calls)
  }

  function HandleFrame(d: Device, f: seq<Byte>, hal: Hal): Outcome
    requires Readable(d, f)
  {
    match Decide(d, f)
    case Silent => Outcome(d, [])
    case Reject(code, reason, select) =>
      Transmit(d.(selected := d.selected || select), PlainAnswer(f, code, reason), hal)
    case Execute(h) =>
      RunHandler(d.(selected := true, port := d.port.(ncsiRx := Bump(d.port.ncsiRx))), h, f, hal)
  }

  /** Some tracked slot is an enabled unicast filter for this address. */
  predicate SourceMatches(s: Filters, source: Mac) {
    exists i :: 0 <= i < MAX_MAC_FILTERS && s[i] == MacFilter(true, 0, source)
  }

  function Forward(d: Device, source: Mac, frame: seq<Byte>, hal: Hal): Outcome {
    if !d.port.txPassthrough || !SourceMatches(d.port.filters, source) then Outcome(d, [])
    else Outcome(if hal.txOk then d.(port := d.port.(netTx := Bump(d.port.netTx))) else d, [TxFrame(frame)])
  }

  /** The responder may be given this buffer in this state. */
  predicate CanReceive(d: Device, buf: seq<Byte>, len: nat) {
    len <= |buf| && (IsControl(Rx(buf, len)) ==> Readable(d, buf))
  }

  function Receive(d: Device, buf: seq<Byte>, len: nat, hal: Hal): Outcome
    requires CanReceive(d, buf, len)
  {
    if len < HEADER_SIZE then Outcome(d, [])
    else if Rd16(buf, 12) == ETHER_TYPE_NCSI then HandleFrame(d, buf, hal)
    else Forward(d, buf[6..12], buf[..len], hal)
  }

  function ResetDevice(d: Device, hal: Hal): Outcome {
    Outcome(d.(port := ResetPort(d.port)), [GetPhy, ResetPhy(hal.phy)])
  }

  function Step(d: Device, x: Input): Outcome {
    match x.event
    case Rx(buf, len) => Receive(d, buf, len, x.hal)
    case Poll =>
      if !d.port.enabled then Outcome(d, [])
      else Outcome(if x.hal.rxOk then d else d.(port := d.port.(netDropped := Bump(d.port.netDropped))),
                   [PassthroughRx])
    case Reload(force) => Outcome(d.(port := ZeroCounters(d.port)), [InitPort(force)])
    case SetChecksum(on) => Outcome(d.(checksumOn := on), [])
    case Init(package, channel) => ResetDevice(d.(package := package, channel := channel), x.hal)
  }

  // ---- Runs ---------------------------------------------------------------------------------

  function Run(d: Device, tr: seq<Input>): Device {
    if |tr| == 0 then d else Step(Run(d, tr[..|tr| - 1]), tr[|tr| - 1]).dev
  }

  /** Every hardware call of a run, in order. */
  function Calls(d: Device, tr: seq<Input>): seq<HalCall> {
    if |tr| == 0 then [] else Calls(d, tr[..|tr| - 1]) + Step(Run(d, tr[..|tr| - 1]), tr[|tr| - 1]).calls
  }

  /** The handler an input runs, if any. */
  function Executes(d: Device, x: Input): (h: Option<Handler>)
    ensures h.Some? ==> x.event.Rx? && |x.event.buf| >= HEADER_SIZE + PayloadOf(h.value)
  {
    if !IsControl(x.event) then None
    else match Decide(d, x.event.buf)
      case Execute(h) => Some(h)
      case _ => None
  }

  lemma RunStep(d: Device, tr: seq<Input>, x: Input)
    ensures Run(d, tr + [x]) == Step(Run(d, tr), x).dev
    ensures Calls(d, tr + [x]) == Calls(d, tr) + Step(Run(d, tr), x).calls
  {
    assert (tr + [x])[..|tr|] == tr;
  }
}
