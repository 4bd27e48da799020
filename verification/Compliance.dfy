/** The responder does what Manual says, one input at a time. */
module Compliance {
  import opened Types
  import opened Wire
  import opened Protocol
  import opened Manual
  import opened Steps

  // ---- The dispatch table by number ---------------------------------------------------------

  /** The command byte that runs a handler; Unknown serves several. */
  function NumberOf(h: Handler): Byte
    requires h != Unknown
  {
    match h
    case ClearInitialState => 0x00 case SelectPackage => 0x01 case DeselectPackage => 0x02
    case EnableChannel => 0x03 case DisableChannel => 0x04 case ResetChannel => 0x05
    case EnableNetworkTx => 0x06 case DisableNetworkTx => 0x07 case AenEnable => 0x08 case SetLink => 0x09
    case GetLinkStatus => 0x0A case SetVlanFilter => 0x0B case EnableVlan => 0x0C case DisableVlan => 0x0D
    case SetMacAddress => 0x0E case EnableBroadcastFilter => 0x10 case DisableBroadcastFilter => 0x11
    case GetVersionId => 0x15 case GetCapabilities => 0x16
  }

  lemma TableByNumber(c: Byte)
    ensures Lookup(c).Some? <==> KnownCommand(c)
    ensures Lookup(c).Some? ==>
              var e := Lookup(c).value;
              && e.payloadLength == RequiredLength(c) && e.ignoreInit == (c == 0x00)
              && e.packageCommand == (c == 0x01 || c == 0x02)
              && (if Unimplemented(c) then e.fn == Unknown else e.fn != Unknown && NumberOf(e.fn) == c)
  {}

  lemma ModHigh(hi: nat, lo: Byte)
    ensures (hi * 256 + lo) % 0x1000 == hi % 16 * 256 + lo
  {
    var q, r := hi / 16, hi % 16;
    assert hi * 256 + lo == 0x1000 * q + (r * 256 + lo);
    ModSplit(q, r * 256 + lo);
  }

  lemma ModSplit(q: nat, r: nat)
    requires r < 0x1000
    ensures (0x1000 * q + r) % 0x1000 == r
  {}

  lemma HeaderByBytes(d: Device, f: seq<Byte>)
    requires |f| >= HEADER_SIZE
    ensures DeclaredLength(f) == PayloadLength(f) && CommandOf(f) == f[18] && Addressed(d, f) == ForUs(d, f)
  {
    ModHigh(f[20], f[21]);
  }

  lemma ControlByBytes(e: Event)
    ensures IsControl(e) == ControlFrame(e)
  {
    if e.Rx? && 30 <= e.len <= |e.buf| { EtherTypeByBytes(e.buf[12], e.buf[13]); }
  }

  lemma EtherTypeByBytes(hi: Byte, lo: Byte)
    ensures Be16(hi, lo) == ETHER_TYPE_NCSI <==> hi == 0x88 && lo == 0xF8
  {}

  /** A frame is executed if and only if it is accepted, by the handler with the command's number. */
  lemma FrameAccepted(d: Device, f: seq<Byte>)
    requires |f| >= HEADER_SIZE
    ensures match Decide(d, f)
            case Execute(h) =>
              AcceptedFrame(d, f) == Some(f[18])
              && if Unimplemented(f[18]) then h == Unknown else h != Unknown && NumberOf(h) == f[18]
            case _ => AcceptedFrame(d, f) == None
  {
    HeaderByBytes(d, f);
    TableByNumber(f[18]);
  }

  lemma InputAccepted(d: Device, x: Input)
    ensures match Executes(d, x)
            case Some(h) =>
              var c := x.event.buf[18];
              Accepted(d, x) == Some(c) && if Unimplemented(c) then h == Unknown else h != Unknown && NumberOf(h) == c
            case None => Accepted(d, x) == None
  {
    ControlByBytes(x.event);
    if IsControl(x.event) { FrameAccepted(d, x.event.buf); }
  }

  // ---- The channel record -------------------------------------------------------------------

  lemma WordByBytes(f: seq<Byte>, at: nat)
    requires at + 4 <= |f|
    ensures Rd32(f, at) == Word(f, at)
  {}

  /** Bit 2 of a register, read through its low byte's low half. */
  lemma LinkBit(register: nat)
    ensures register % 0x1_0000 / 4 % 2 == 1 <==> register % 8 >= 4
  {
    var a, r := register / 0x1_0000, register % 0x1_0000;
    var b, s := r / 8, r % 8;
    assert register == 8 * (0x2000 * a + b) + s;
    EighthsSplit(0x2000 * a + b, s);
    assert r / 4 == 2 * b + s / 4;
  }

  lemma EighthsSplit(q: nat, s: nat)
    requires s < 8
    ensures (8 * q + s) % 8 == s
  {}

  lemma LinkByBits(l: LinkCache, register: I32)
    ensures ReadLink(l, register) == RefreshedLink(l, register)
  {
    if register >= 0 { LinkBit(register); }
  }

  lemma FilterByBytes(f: seq<Byte>)
    requires |f| >= 38
    ensures MacFilter(EnableOf(f), AddressTypeOf(f), MacOf(f)) == FilterIn(f) && SlotOf(f) == Slot(f)
  {}

  lemma ResetByFields(p: Port)
    ensures ResetPort(p) == AfterReset(p)
  {
    assert ResetFilters(p.filters) == AfterReset(p).filters;
  }

  lemma EffectByNumber(p: Port, h: Handler, c: Byte, f: seq<Byte>, hal: Hal)
    requires |f| >= HEADER_SIZE + PayloadOf(h) && Complete(c, f)
    requires if Unimplemented(c) then h == Unknown else h != Unknown && NumberOf(h) == c
    ensures Effect(p, h, f, hal) == Record(p, c, f, hal)
  {
    match h {
      case ResetChannel => ResetByFields(p);
      case GetLinkStatus => LinkByBits(p.link, hal.phyRegister);
      case SetMacAddress => FilterByBytes(f);
      case _ =>
    }
  }

  /** What every input does to the channel record, apart from the statistics: an accepted command what Record says,
      NCSI_init a reset, anything else nothing. */
  lemma {:induction false} StepRecord(d: Device, x: Input)
    ensures Config(Step(d, x).dev.port) ==
            match Accepted(d, x)
            case Some(c) => Config(Record(d.port, c, x.event.buf, x.hal))
            case None => if x.event.Init? then Config(AfterReset(d.port)) else Config(d.port)
  {
    StepConfig(d, x);
    InputAccepted(d, x);
    match Executes(d, x) {
      case Some(h) => EffectByNumber(d.port, h, x.event.buf[18], x.event.buf, x.hal);
      case None => ResetByFields(d.port);
    }
  }
}
