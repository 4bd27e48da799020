/** What the responder asks of the hardware and what it puts on the wire, input by input, byte by byte: every reachable
    device does exactly what Manual says. */
module Answers {
  import opened Types
  import opened Wire
  import opened Protocol
  import opened Manual
  import opened Steps
  import opened Compliance
  import opened Runs
  import opened Responses

  // ---- The bytes of a packet ----------------------------------------------------------------

  /** The addresses and the EtherType. */
  function Front(): seq<Byte> {
    [0xFF, 0xFF, 0xFF, 0xFF, 0xFF, 0xFF, 0xFF, 0xFF, 0xFF, 0xFF, 0xFF, 0xFF, 0x88, 0xF8]
  }

  function Middle(instance: Byte, ctype: Byte, channel: Byte, length: Byte): seq<Byte> {
    [0, 1, 0, instance, ctype, channel, 0, length, 0, 0, 0, 0, 0, 0, 0, 0]
  }

  lemma StaticByte(board: Board, k: Kind, b: Buffer, i: nat)
    requires Intact(board, k, b) && i < FRAME_SIZE && !Dynamic(k, i)
    ensures b[i] == TemplateByte(board, k, i)
  {}

  lemma FrontBytes(board: Board, k: Kind, b: Buffer)
    requires Intact(board, k, b)
    ensures b[..14] == Front()
  {
    forall i | 0 <= i < 14 ensures b[i] == Front()[i] { StaticByte(board, k, b, i); }
  }

  lemma MiddleBytes(board: Board, b: Buffer, a: Answer)
    requires Intact(board, a.kind, b) && Carries(b, a) && TypeFits(a)
    ensures b[14..30] == Middle(a.instance, a.ctype, a.channel, PayloadLen(a.kind))
  {
    var m := Middle(a.instance, a.ctype, a.channel, PayloadLen(a.kind));
    if a.kind == Link { StaticByte(board, Link, b, 18); }
    forall i | 0 <= i < 16 ensures b[14 + i] == m[i] {
      if i != 3 && i != 4 && i != 5 { StaticByte(board, a.kind, b, 14 + i); }
    }
  }

  lemma Halves16(f: seq<Byte>, at: nat, v: U16)
    requires at + 2 <= |f| && Rd16(f, at) == v
    ensures f[at] == High(v) && f[at + 1] == Low(v)
  {}

  lemma CodeBytes(b: Buffer, a: Answer)
    requires Carries(b, a)
    ensures b[30..34] == [High(a.code), Low(a.code), High(a.reason), Low(a.reason)]
  {
    Halves16(b, 30, a.code);
    Halves16(b, 32, a.reason);
  }

  lemma SmallWordBytes(f: seq<Byte>, at: nat, v: Byte)
    requires at + 4 <= |f| && Rd32(f, at) == v
    ensures f[at..at + 4] == [0, 0, 0, v]
  {
    BytesOfBe32(f[at], f[at + 1], f[at + 2], f[at + 3]);
  }

  lemma LinkBodyBytes(b: Buffer, a: Answer, up: bool)
    requires a.kind == Link && Carries(b, a) && a.status == LinkByte(up) && a.other == 0 && a.oem == 0
    ensures b[34..46] == LinkBytes(up)
  {
    SmallWordBytes(b, 34, LinkByte(up));
    SmallWordBytes(b, 38, 0);
    SmallWordBytes(b, 42, 0);
    LinkParts(b, up);
  }

  lemma LinkParts(b: seq<Byte>, up: bool)
    requires |b| >= 46 && b[34..38] == [0, 0, 0, LinkByte(up)] && b[38..42] == [0, 0, 0, 0] && b[42..46] == [0, 0, 0, 0]
    ensures b[34..46] == LinkBytes(up)
  {
    assert b[34..46] == b[34..38] + b[38..42] + b[42..46];
  }

  /** The static bytes of a layout from one position to another. */
  function TemplatePart(board: Board, k: Kind, from: nat, n: nat): seq<Byte> {
    seq<Byte>(n, i requires 0 <= i < n => TemplateByte(board, k, from + i))
  }

  lemma StaticPart(board: Board, k: Kind, b: Buffer, from: nat, n: nat)
    requires Intact(board, k, b) && (k == Capabilities || k == Version) && 34 <= from && from + n <= FieldAt(k)
    ensures b[from..from + n] == TemplatePart(board, k, from, n)
  {
    forall i | 0 <= i < n ensures b[from..from + n][i] == TemplatePart(board, k, from, n)[i] {
      StaticByte(board, k, b, from + i);
    }
  }

  lemma CapabilityParts(board: Board)
    ensures TemplatePart(board, Capabilities, 34, 28) == CapabilityBytes(board)
  {
    forall i | 0 <= i < 28 ensures TemplateByte(board, Capabilities, 34 + i) == CapabilityBytes(board)[i] {}
    SamePart(board, Capabilities, 34, CapabilityBytes(board));
  }

  lemma ManufacturerBytes(v: U32)
    ensures High(v / 65536) == v / 0x100_0000 && Low(v / 65536) == v / 0x1_0000 % 0x100
    ensures High(v % 65536) == v / 0x100 % 0x100 && Low(v % 65536) == v % 0x100
  {
    var hi, lo := v / 65536, v % 65536;
    assert v == 65536 * hi + lo;
    assert v / 0x100 == 256 * hi + lo / 256;
  }

  lemma VersionFront(board: Board)
    ensures TemplatePart(board, Version, 34, 20) == NameBytes()
  {
    forall i | 0 <= i < 20 ensures TemplateByte(board, Version, 34 + i) == NameBytes()[i] {}
    SamePart(board, Version, 34, NameBytes());
  }

  lemma SamePart(board: Board, k: Kind, from: nat, bytes: seq<Byte>)
    requires forall i :: 0 <= i < |bytes| ==> TemplateByte(board, k, from + i) == bytes[i]
    ensures TemplatePart(board, k, from, |bytes|) == bytes
  {}

  lemma VersionIds(board: Board)
    ensures TemplatePart(board, Version, 54, 12) == IdBytes(board)
  {
    forall i | 0 <= i < 12 ensures TemplateByte(board, Version, 54 + i) == IdBytes(board)[i] {}
    SamePart(board, Version, 54, IdBytes(board));
  }

  lemma VersionMaker(board: Board)
    ensures TemplatePart(board, Version, 66, 4) == MakerBytes(board)
  {
    ManufacturerBytes(board.manufacturer);
    forall i | 0 <= i < 4 ensures TemplateByte(board, Version, 66 + i) == MakerBytes(board)[i] {}
    SamePart(board, Version, 66, MakerBytes(board));
  }

  lemma PartsJoin(board: Board, k: Kind, from: nat, m: nat, n: nat)
    ensures TemplatePart(board, k, from, m + n) == TemplatePart(board, k, from, m) + TemplatePart(board, k, from + m, n)
  {}

  lemma VersionParts(board: Board)
    ensures TemplatePart(board, Version, 34, 36) == VersionBytes(board)
  {
    VersionFront(board);
    VersionIds(board);
    VersionMaker(board);
    PartsJoin(board, Version, 34, 20, 12);
    PartsJoin(board, Version, 34, 32, 4);
  }

  // ---- The packet of an answer --------------------------------------------------------------

  /** What the body of an answer of each kind must hold. */
  predicate BodyFits(a: Answer, c: Byte, up: bool) {
    match a.kind
    case Plain => a.code != 0 || c !in {0x0A, 0x15, 0x16}
    case Link => a.code == 0 && c == 0x0A && a.status == LinkByte(up) && a.other == 0 && a.oem == 0
    case Capabilities => a.code == 0 && c == 0x16
    case Version => a.code == 0 && c == 0x15
  }

  lemma BodyIs(board: Board, b: Buffer, a: Answer, c: Byte, up: bool)
    requires Intact(board, a.kind, b) && Carries(b, a) && BodyFits(a, c, up)
    ensures BodyBytes(board, c, a.code, up) == b[34..FieldAt(a.kind)] && PayloadLen(a.kind) == FieldAt(a.kind) - 30
  {
    match a.kind {
      case Plain =>
      case Link => LinkBodyBytes(b, a, up);
      case Capabilities =>
        StaticPart(board, Capabilities, b, 34, 28);
        CapabilityParts(board);
      case Version =>
        StaticPart(board, Version, b, 34, 36);
        VersionParts(board);
    }
  }

  lemma PacketIs(board: Board, b: Buffer, a: Answer, f: seq<Byte>, up: bool)
    requires Intact(board, a.kind, b) && Carries(b, a) && TypeFits(a) && |f| >= 30 && BodyFits(a, f[18], up)
    requires a.instance == f[17] && a.channel == f[19] && a.ctype == if f[18] < 128 then f[18] + 128 else f[18]
    ensures Packet(board, f, a.code, a.reason, up) == b[..FieldAt(a.kind)]
  {
    BodyIs(board, b, a, f[18], up);
    FrontBytes(board, a.kind, b);
    MiddleBytes(board, b, a);
    CodeBytes(b, a);
    Pieces(b, FieldAt(a.kind));
    assert Packet(board, f, a.code, a.reason, up) == b[..14] + b[14..30] + b[30..34] + b[34..FieldAt(a.kind)];
  }

  lemma Pieces(b: seq<Byte>, n: nat)
    requires 34 <= n <= |b|
    ensures b[..n] == b[..14] + b[14..30] + b[30..34] + b[34..n]
  {}

  lemma AnswerFits(d: Device, f: seq<Byte>, hal: Hal)
    requires Readable(d, f) && ForUs(d, f) && d.channel < 31 && Safe(d.port)
    ensures AnswerTo(d, f, hal).Some?
    ensures var a := AnswerTo(d, f, hal).value;
            BodyFits(a, f[18], RefreshedLink(d.port.link, hal.phyRegister).up)
  {
    AnsweredIfForUs(d, f, hal);
    FrameAccepted(d, f);
    match Decide(d, f) {
      case Silent =>
      case Reject(code, reason, _) =>
      case Execute(h) => LinkByBits(d.port.link, hal.phyRegister);
    }
  }

  // ---- All hardware calls -------------------------------------------------------------------

  lemma OrdersByNumber(p: Port, h: Handler, c: Byte, f: seq<Byte>, hal: Hal)
    requires |f| >= HEADER_SIZE + PayloadOf(h) && Complete(c, f)
    requires if Unimplemented(c) then h == Unknown else h != Unknown && NumberOf(h) == c
    ensures EffectCalls(p, h, f, hal) == Orders(p, c, f, hal)
  {
    match h {
      case GetLinkStatus => LinkByBits(p.link, hal.phyRegister);
      case SetMacAddress => FilterByBytes(f);
      case _ =>
    }
  }

  function SentFor(d: Device, f: seq<Byte>, hal: Hal): seq<Byte>
    requires Readable(d, f) && AnswerTo(d, f, hal).Some?
  {
    var a := AnswerTo(d, f, hal).value;
    Filled(d.checksumOn, d.buffers.Get(a.kind), a)[..TxLen(a.kind)]
  }

  lemma FrameCalls(d: Device, f: seq<Byte>, hal: Hal)
    requires Readable(d, f) && AnswerTo(d, f, hal).Some?
    ensures HandleFrame(d, f, hal).calls ==
            (if Decide(d, f).Execute? then EffectCalls(d.port, Decide(d, f).fn, f, hal) else [])
            + [TxFrame(SentFor(d, f, hal))]
  {
    match Decide(d, f) {
      case Silent =>
      case Reject(code, reason, select) =>
        TransmitSends(d.(selected := d.selected || select), PlainAnswer(f, code, reason), hal);
      case Execute(h) =>
        var e := d.(selected := true, port := Received(d.port));
        TransmitSends(e.(port := Effect(e.port, h, f, hal)), HandlerAnswer(Effect(e.port, h, f, hal), h, f), hal);
    }
  }

  lemma SentFramed(board: Board, d: Device, f: seq<Byte>, hal: Hal)
    requires Sound(board, d) && Safe(d.port) && Readable(d, f) && ForUs(d, f)
    ensures AnswerTo(d, f, hal).Some?
    ensures var (code, reason) := Verdict(d, f);
            Framed(SentFor(d, f, hal), Packet(board, f, code, reason, RefreshedLink(d.port.link, hal.phyRegister).up))
  {
    AnswerFits(d, f, hal);
    VerdictHolds(d, f, hal);
    AnswerShape(d, f, hal);
    var a := AnswerTo(d, f, hal).value;
    var b := Filled(d.checksumOn, d.buffers.Get(a.kind), a);
    FilledIntact(board, d.checksumOn, d.buffers.Get(a.kind), a);
    FilledFields(d.checksumOn, d.buffers.Get(a.kind), a);
    PacketIs(board, b, a, f, RefreshedLink(d.port.link, hal.phyRegister).up);
    FramedPrefix(board, a.kind, b);
  }

  lemma FramedPrefix(board: Board, k: Kind, b: Buffer)
    requires Intact(board, k, b)
    ensures Framed(b[..TxLen(k)], b[..FieldAt(k)])
  {
    var sent := b[..TxLen(k)];
    Positions(k);
    assert sent[..FieldAt(k)] == b[..FieldAt(k)];
    forall i | FieldAt(k) + 4 <= i < |sent| ensures sent[i] == 0 { StaticByte(board, k, b, i); }
  }

  /** What an accepted command orders from the hardware; a rejected frame orders nothing. */
  function OrdersOf(d: Device, x: Input): seq<HalCall> {
    match Accepted(d, x)
    case Some(c) => Orders(d.port, c, x.event.buf, x.hal)
    case None => []
  }

  /** Exactly one answer, in every reachable state and byte by byte. A control frame for this device makes the hardware
      calls its command orders and then one transmission, whose bytes are the packet for the request's instance, channel
      and type, the codes of the priority table and the body of the command; only the checksum field is left open. Any
      other control frame makes no call and changes nothing. */
  lemma {:induction false} ExactlyOneAnswer(board: Board, tr: seq<Input>, x: Input)
    requires ControlFrame(x.event)
    ensures var d := Run(Boot(board), tr); var f := x.event.buf; var o := Step(d, x);
            if !ForUs(d, f) then o == Outcome(d, [])
            else
              var n := |OrdersOf(d, x)|; var (code, reason) := Verdict(d, f);
              && |o.calls| == n + 1 && o.calls[..n] == OrdersOf(d, x) && o.calls[n].TxFrame?
              && Framed(o.calls[n].bytes,
                        Packet(board, f, code, reason, RefreshedLink(d.port.link, x.hal.phyRegister).up))
  {
    var d, f := Run(Boot(board), tr), x.event.buf;
    ControlByBytes(x.event);
    AlwaysSound(board, tr);
    AlwaysSafe(board, tr);
    AnsweredIfForUs(d, f, x.hal);
    if ForUs(d, f) {
      SentFramed(board, d, f, x.hal);
      AnswerCalls(d, x);
    } else {
      FrameSends(d, f, x.hal);
    }
  }

  lemma AnswerCalls(d: Device, x: Input)
    requires IsControl(x.event) && AnswerTo(d, x.event.buf, x.hal).Some?
    ensures Step(d, x).calls == OrdersOf(d, x) + [TxFrame(SentFor(d, x.event.buf, x.hal))]
  {
    FrameCalls(d, x.event.buf, x.hal);
    InputAccepted(d, x);
    match Executes(d, x) {
      case Some(h) => OrdersByNumber(d.port, h, x.event.buf[18], x.event.buf, x.hal);
      case None =>
    }
  }

  /** The same answer as its receiver decodes it. */
  lemma {:induction false} AnswerDecodes(board: Board, tr: seq<Input>, x: Input)
    requires ControlFrame(x.event) && ForUs(Run(Boot(board), tr), x.event.buf)
    ensures var d := Run(Boot(board), tr); var f := x.event.buf; var (code, reason) := Verdict(d, f);
            && Transmissions(Step(d, x).calls) == [SentAt(d, [x], 0)]
            && Decode(SentAt(d, [x], 0)).Some?
            && var r := Decode(SentAt(d, [x], 0)).value;
               && r.instance == f[17] && r.ctype == (if f[18] < 128 then f[18] + 128 else f[18]) && r.channel == f[19]
               && r.code == code && r.reason == reason
               && r.body == BodyFields(board, f[18], code, RefreshedLink(d.port.link, x.hal.phyRegister).up)
  {
    var d, f := Run(Boot(board), tr), x.event.buf;
    ControlByBytes(x.event);
    AlwaysSound(board, tr);
    AlwaysSafe(board, tr);
    AnswerFits(d, f, x.hal);
    VerdictHolds(d, f, x.hal);
    AnswerShape(d, f, x.hal);
    var a := AnswerTo(d, f, x.hal).value;
    FrameSends(d, f, x.hal);
    assert StateAt(d, [x], 0) == d;
    DecodeSent(board, d.checksumOn, d.buffers.Get(a.kind), a);
    FieldsFit(board, a, f[18], RefreshedLink(d.port.link, x.hal.phyRegister).up);
  }

  lemma FieldsFit(board: Board, a: Answer, c: Byte, up: bool)
    requires BodyFits(a, c, up)
    ensures BodyOf(board, a) == BodyFields(board, c, a.code, up)
  {}

  // ---- Single commands and local inputs -----------------------------------------------------

  /** What the inputs that are not frames ask of the hardware. */
  lemma {:induction false} LocalCalls(d: Device, x: Input)
    requires !x.event.Rx?
    ensures Step(d, x).calls ==
            match x.event
            case Poll => if d.port.enabled then [PassthroughRx] else []
            case Reload(force) => [InitPort(force)]
            case SetChecksum(_) => []
            case Init(_, _) => [GetPhy, ResetPhy(x.hal.phy)]
  {}

  /** Identity and the checksum switch change through NCSI_init and the toggle only; the package is selected by every
      accepted command but Deselect Package, which ends the selection, and by commands refused for want of
      initialisation. */
  lemma {:induction false} Settings(d: Device, x: Input)
    requires d.channel < 31
    ensures var e := Step(d, x).dev;
            && e.package == (if x.event.Init? then x.event.package else d.package)
            && e.channel == (if x.event.Init? then x.event.channel else d.channel)
            && e.checksumOn == (if x.event.SetChecksum? then x.event.on else d.checksumOn)
            && e.selected == (match Accepted(d, x)
                              case Some(c) => c != 0x02
                              case None => d.selected || (ControlFrame(x.event) && ForUs(d, x.event.buf)
                                                          && Verdict(d, x.event.buf) == (1, 1)))
  {
    StepSettings(d, x);
    ControlByBytes(x.event);
    if IsControl(x.event) { FrameSelects(d, x); }
  }

  lemma FrameSelects(d: Device, x: Input)
    requires IsControl(x.event) && d.channel < 31
    ensures Step(d, x).dev.selected == (match Accepted(d, x)
                                        case Some(c) => c != 0x02
                                        case None => d.selected || (ForUs(d, x.event.buf)
                                                                    && Verdict(d, x.event.buf) == (1, 1)))
  {
    var f := x.event.buf;
    ControlByBytes(x.event);
    FrameAccepted(d, f);
    AnsweredIfForUs(d, f, x.hal);
    match Decide(d, f) {
      case Silent =>
      case Reject(code, reason, select) =>
        RejectVerdict(d, f);
        assert Step(d, x).dev.selected == (d.selected || select);
      case Execute(h) => assert Step(d, x).dev.selected == (h != DeselectPackage);
    }
  }

  /** Set VLAN Filter stores nothing, in any state and whatever it answers: its value is neither recorded nor told to
      the hardware, which is only asked to transmit the answer. */
  lemma {:induction false} VlanFilterStoresNothing(d: Device, x: Input)
    requires Accepted(d, x) == Some(0x0B)
    ensures Config(Step(d, x).dev.port) == Config(d.port)
    ensures |Step(d, x).calls| == 1 && Step(d, x).calls[0].TxFrame?
  {
    VlanConfig(d, x);
    VlanCalls(d, x);
  }

  lemma VlanConfig(d: Device, x: Input)
    requires Accepted(d, x) == Some(0x0B)
    ensures Config(Step(d, x).dev.port) == Config(d.port)
  {
    AcceptedRecord(d, x, 0x0B);
    VlanRecord(d.port, x.event.buf, x.hal);
  }

  lemma AcceptedRecord(d: Device, x: Input, c: Byte)
    requires Accepted(d, x) == Some(c)
    ensures Config(Step(d, x).dev.port) == Config(Record(d.port, c, x.event.buf, x.hal))
  {
    StepRecord(d, x);
  }

  lemma VlanRecord(p: Port, f: seq<Byte>, hal: Hal)
    requires Complete(0x0B, f)
    ensures Record(p, 0x0B, f, hal) == p
  {}

  lemma VlanCalls(d: Device, x: Input)
    requires Accepted(d, x) == Some(0x0B)
    ensures |Step(d, x).calls| == 1 && Step(d, x).calls[0].TxFrame?
  {
    AcceptedCalls(d, x);
    assert OrdersOf(d, x) == [];
  }

  lemma AcceptedCalls(d: Device, x: Input)
    requires Accepted(d, x).Some?
    ensures IsControl(x.event) && AnswerTo(d, x.event.buf, x.hal).Some?
    ensures Step(d, x).calls == OrdersOf(d, x) + [TxFrame(SentFor(d, x.event.buf, x.hal))]
  {
    ControlByBytes(x.event);
    AnsweredIfForUs(d, x.event.buf, x.hal);
    AnswerCalls(d, x);
  }

  // ---- Link status --------------------------------------------------------------------------

  /** Every Get Link Status answer of a run reads, as transmitted, 0x23 or 0x20 according to the latest successful read
      of PHY register 1 since power-up, this one included: bit 2 of the value says up. Failed reads and resets do not
      matter; with no read at all the link is down. A link reported down makes the responder consult the driver, and it
      is kicked exactly when the driver agrees. */
  lemma {:induction false} LinkStatusHistory(board: Board, tr: seq<Input>, x: Input)
    requires Accepted(Run(Boot(board), tr), x) == Some(0x0A)
    ensures var d := Run(Boot(board), tr); var o := Step(d, x); var up := Since(LinkUp, Boot(board), tr + [x]);
            var sent := SentAt(d, [x], 0);
            && Decode(sent).Some? && Decode(sent).value.body == LinkBody(if up then 0x23 else 0x20, 0, 0)
            && o.calls == [GetPhy, ReadPhy(x.hal.phy, 1)]
                          + (if up then [] else if x.hal.linkUp then [IsLinkUp] else [IsLinkUp, ResetLink])
                          + [TxFrame(sent)]
  {
    var d := Run(Boot(board), tr);
    LinkNow(board, tr, x);
    AlwaysSound(board, tr);
    AnswerDecodes(board, tr, x);
    ControlByBytes(x.event);
    AnsweredIfForUs(d, x.event.buf, x.hal);
    AnswerCalls(d, x);
    FrameSends(d, x.event.buf, x.hal);
    assert StateAt(d, [x], 0) == d;
  }

  lemma LinkNow(board: Board, tr: seq<Input>, x: Input)
    requires Accepted(Run(Boot(board), tr), x) == Some(0x0A)
    ensures RefreshedLink(Run(Boot(board), tr).port.link, x.hal.phyRegister).up
            <==> Since(LinkUp, Boot(board), tr + [x])
  {
    var d := Run(Boot(board), tr);
    FactHistory(LinkUp, Boot(board), tr + [x]);
    RunStep(Boot(board), tr, x);
    LinkStep(d, x);
  }

  lemma LinkStep(d: Device, x: Input)
    requires Accepted(d, x) == Some(0x0A)
    ensures Step(d, x).dev.port.link == RefreshedLink(d.port.link, x.hal.phyRegister)
  {
    StepRecord(d, x);
    assert Config(Step(d, x).dev.port).link == Step(d, x).dev.port.link;
  }
}
