/** What the responder puts on the wire: one answer for each addressed control frame, read back from the bytes, and
    the history of the four static buffers it is sent from. */
module Responses {
  import opened Types
  import opened Wire
  import opened Protocol
  import opened Manual
  import opened Steps
  import opened Compliance
  import opened Runs
  import Checksum

  // ---- Laying out and sealing a buffer ------------------------------------------------------

  predicate Stamped(k: Kind, i: nat) {
    i == 17 || i == 19 || 30 <= i < 34 || (k != Link && i == 18) || (k == Link && 34 <= i < 46)
  }

  lemma StampKeeps(b: Buffer, a: Answer)
    ensures forall i :: 0 <= i < FRAME_SIZE && !Stamped(a.kind, i) ==> Stamp(b, a)[i] == b[i]
  {}

  lemma StampHeader(b: Buffer, a: Answer)
    ensures var s := Stamp(b, a);
            && s[17] == a.instance && s[19] == a.channel && s[18] == (if a.kind == Link then b[18] else a.ctype)
            && Rd16(s, 30) == a.code && Rd16(s, 32) == a.reason
  {}

  lemma StampLink(b: Buffer, a: Answer)
    requires a.kind == Link
    ensures var s := Stamp(b, a);
            Rd32(s, 34) == a.status && Rd32(s, 38) == a.other && Rd32(s, 42) == a.oem
  {
    Digits(a.status);
    Digits(a.other);
    Digits(a.oem);
  }

  function Region(k: Kind): nat { ChecksumAt(k) - REGION_START }

  function Field(k: Kind, b: Buffer): U32 { Rd32(b, ChecksumAt(k)) }

  /** The compensation of what a buffer holds. */
  function OwnCompensation(k: Kind, b: Buffer): U32 {
    Checksum.Compensation(Checksum.WordSum(b, REGION_START, Region(k)))
  }

  lemma SealKeeps(on: bool, k: Kind, b: Buffer)
    ensures forall i :: 0 <= i < FRAME_SIZE && !(ChecksumAt(k) <= i < ChecksumAt(k) + 4) ==> Seal(on, k, b)[i] == b[i]
    ensures Field(k, Seal(on, k, b)) == if on then OwnCompensation(k, b) else Field(k, b)
    ensures OwnCompensation(k, Seal(on, k, b)) == OwnCompensation(k, b)
  {
    if on {
      PutKeeps(b, ChecksumAt(k), OwnCompensation(k, b));
      Rd32Put32(b, ChecksumAt(k), OwnCompensation(k, b));
      Checksum.SameBytesSameWords(b, Seal(on, k, b), REGION_START, Region(k), (Region(k) + 1) / 2);
    }
  }

  /** The buffer an answer is sent from, as it is sent. */
  function Filled(on: bool, b: Buffer, a: Answer): Buffer { Seal(on, a.kind, Stamp(b, a)) }

  /** The type byte in the buffer already is the answer's type wherever the builder leaves it alone or it is fixed. */
  predicate TypeFits(a: Answer) { a.kind == Plain || a.ctype == TemplateType(a.kind) }

  lemma FilledIntact(board: Board, on: bool, b: Buffer, a: Answer)
    requires Intact(board, a.kind, b) && TypeFits(a)
    ensures Intact(board, a.kind, Filled(on, b, a))
  {
    StampKeeps(b, a);
    StampHeader(b, a);
    SealKeeps(on, a.kind, Stamp(b, a));
  }

  /** The static bytes of a layout, in a packet of its length. */
  ghost predicate StaticBytes(board: Board, k: Kind, p: seq<Byte>) {
    |p| == TxLen(k) && forall i :: 0 <= i < |p| && !Dynamic(k, i) ==> p[i] == TemplateByte(board, k, i)
  }

  lemma DecodeHeader(board: Board, k: Kind, p: seq<Byte>)
    requires StaticBytes(board, k, p)
    ensures Rd16(p, 12) == ETHER_TYPE_NCSI && p[15] == 1 && DeclaredLength(p) == PayloadLen(k)
    ensures k != Plain ==> p[18] == TemplateType(k)
    ensures forall i :: ChecksumAt(k) + 4 <= i < |p| ==> p[i] == 0
  {}

  /** Reading the body of a packet that carries the static bytes; the link fields are whatever they are. */
  lemma DecodeStatic(board: Board, k: Kind, p: seq<Byte>)
    requires StaticBytes(board, k, p)
    ensures DecodeBody(p, PayloadLen(k)) ==
            Some(BodyOf(board, Answer(k, 0, 0, 0, 0, 0, Rd32(p, 34), Rd32(p, 42), Rd32(p, 38))))
  {
    match k {
      case Plain =>
      case Link =>
      case Capabilities =>
        StaticBody(board, k, p, 34);
        CapabilityWords(board, p);
        CapabilityCounts(board, p);
        DecodeCapabilities(board, p);
      case Version =>
        StaticBody(board, k, p, 34);
        VersionNumbers(board, p);
        VersionName(board, p);
        VersionIdentity(board, p);
        DecodeVersion(board, p);
    }
  }

  /** From byte i on the body holds its static values. Recursive, so that a proof looks at one byte at a time. */
  predicate BodyFrom(board: Board, k: Kind, p: seq<Byte>, i: nat)
    decreases |p| - i
  {
    i >= ChecksumAt(k) || (i < |p| && p[i] == TemplateByte(board, k, i) && BodyFrom(board, k, p, i + 1))
  }

  lemma {:induction false} StaticBody(board: Board, k: Kind, p: seq<Byte>, i: nat)
    requires StaticBytes(board, k, p) && (k == Capabilities || k == Version) && 34 <= i
    ensures BodyFrom(board, k, p, i)
    decreases |p| - i
  {
    if i < ChecksumAt(k) { StaticBody(board, k, p, i + 1); }
  }

  lemma {:induction false} BodyByte(board: Board, k: Kind, p: seq<Byte>, from: nat, i: nat)
    requires from <= i < ChecksumAt(k) && BodyFrom(board, k, p, from)
    ensures i < |p| && p[i] == TemplateByte(board, k, i)
    decreases i - from
  {
    if from < i { BodyByte(board, k, p, from + 1, i); }
  }

  lemma SmallWord(p: seq<Byte>, at: nat, v: Byte)
    requires at + 4 <= |p| && p[at] == 0 && p[at + 1] == 0 && p[at + 2] == 0 && p[at + 3] == v
    ensures Rd32(p, at) == v
  {}

  lemma CapabilityWord(board: Board, p: seq<Byte>, at: nat, v: Byte)
    requires BodyFrom(board, Capabilities, p, 34) && at in {34, 38, 42, 46, 50} && v == CapabilityByte(board, at + 3)
    ensures at + 4 <= |p| && Rd32(p, at) == v
  {
    BodyByte(board, Capabilities, p, 34, at);
    BodyByte(board, Capabilities, p, 34, at + 1);
    BodyByte(board, Capabilities, p, 34, at + 2);
    BodyByte(board, Capabilities, p, 34, at + 3);
    SmallWord(p, at, v);
  }

  lemma CapabilityWords(board: Board, p: seq<Byte>)
    requires |p| == TxLen(Capabilities) && BodyFrom(board, Capabilities, p, 34)
    ensures Rd32(p, 34) == 0 && Rd32(p, 38) == 0xF && Rd32(p, 42) == 0 && Rd32(p, 46) == 0 && Rd32(p, 50) == 7
  {
    CapabilityWord(board, p, 34, 0);
    CapabilityWord(board, p, 38, 0xF);
    CapabilityWord(board, p, 42, 0);
    CapabilityWord(board, p, 46, 0);
    CapabilityWord(board, p, 50, 7);
  }

  lemma CapabilityCounts(board: Board, p: seq<Byte>)
    requires |p| == TxLen(Capabilities) && BodyFrom(board, Capabilities, p, 34)
    ensures p[54] == p[55] == p[56] == p[57] == 1 && p[60] == 7 && p[61] == board.channelCount
  {
    BodyByte(board, Capabilities, p, 34, 54);
    BodyByte(board, Capabilities, p, 34, 55);
    BodyByte(board, Capabilities, p, 34, 56);
    BodyByte(board, Capabilities, p, 34, 57);
    BodyByte(board, Capabilities, p, 34, 60);
    BodyByte(board, Capabilities, p, 34, 61);
  }

  lemma DecodeCapabilities(board: Board, p: seq<Byte>)
    requires |p| == TxLen(Capabilities)
    requires Rd32(p, 34) == 0 && Rd32(p, 38) == 0xF && Rd32(p, 42) == 0 && Rd32(p, 46) == 0 && Rd32(p, 50) == 7
    requires p[54] == p[55] == p[56] == p[57] == 1 && p[60] == 7 && p[61] == board.channelCount
    ensures DecodeBody(p, 32) == Some(BodyOf(board, Answer(Capabilities, 0, 0, 0, 0, 0, 0, 0, 0)))
  {}

  lemma DecodeVersion(board: Board, p: seq<Byte>)
    requires |p| == FRAME_SIZE && p[34] == 0xF1 && p[35] == 0xF2 && p[36] == 0xF0 && p[37] == 0 && p[41] == 0
    requires p[42..54] == FirmwareName()
    requires Rd32(p, 54) == (board.fwMajor as int) * 0x1_0000 + (board.fwMinor as int) * 0x100 + board.fwPatch as int
    requires Rd16(p, 58) == board.pciDevice && Rd16(p, 60) == board.pciVendor
    requires Rd16(p, 62) == board.pciSubDevice && Rd16(p, 64) == board.pciSubVendor
    requires Rd32(p, 66) == board.manufacturer
    ensures DecodeBody(p, 40) == Some(BodyOf(board, Answer(Version, 0, 0, 0, 0, 0, 0, 0, 0)))
  {}

  lemma VersionNumbers(board: Board, p: seq<Byte>)
    requires |p| == FRAME_SIZE && BodyFrom(board, Version, p, 34)
    ensures p[34] == 0xF1 && p[35] == 0xF2 && p[36] == 0xF0 && p[37] == 0 && p[41] == 0
  {
    BodyByte(board, Version, p, 34, 34);
    BodyByte(board, Version, p, 34, 35);
    BodyByte(board, Version, p, 34, 36);
    BodyByte(board, Version, p, 34, 37);
    BodyByte(board, Version, p, 34, 41);
  }

  lemma VersionName(board: Board, p: seq<Byte>)
    requires |p| == FRAME_SIZE && BodyFrom(board, Version, p, 34)
    ensures p[42..54] == FirmwareName()
  {
    forall i | 0 <= i < 12 ensures p[42..54][i] == FirmwareName()[i] {
      BodyByte(board, Version, p, 34, 42 + i);
      NameByte(board, i);
    }
  }

  lemma NameByte(board: Board, i: nat)
    requires i < 12
    ensures TemplateByte(board, Version, 42 + i) == FirmwareName()[i]
  {}

  lemma VersionIdentity(board: Board, p: seq<Byte>)
    requires |p| == FRAME_SIZE && BodyFrom(board, Version, p, 34)
    ensures Rd32(p, 54) == (board.fwMajor as int) * 0x1_0000 + (board.fwMinor as int) * 0x100 + board.fwPatch as int
    ensures Rd16(p, 58) == board.pciDevice && Rd16(p, 60) == board.pciVendor
    ensures Rd16(p, 62) == board.pciSubDevice && Rd16(p, 64) == board.pciSubVendor
    ensures Rd32(p, 66) == board.manufacturer
  {
    VersionFirmware(board, p);
    VersionHalf(board, p, 58, board.pciDevice);
    VersionHalf(board, p, 60, board.pciVendor);
    VersionHalf(board, p, 62, board.pciSubDevice);
    VersionHalf(board, p, 64, board.pciSubVendor);
    VersionManufacturer(board, p);
  }

  lemma VersionFirmware(board: Board, p: seq<Byte>)
    requires |p| == FRAME_SIZE && BodyFrom(board, Version, p, 34)
    ensures Rd32(p, 54) == (board.fwMajor as int) * 0x1_0000 + (board.fwMinor as int) * 0x100 + board.fwPatch as int
  {
    BodyByte(board, Version, p, 34, 54);
    BodyByte(board, Version, p, 34, 55);
    BodyByte(board, Version, p, 34, 56);
    BodyByte(board, Version, p, 34, 57);
  }

  lemma VersionHalf(board: Board, p: seq<Byte>, at: nat, v: U16)
    requires |p| == FRAME_SIZE && BodyFrom(board, Version, p, 34) && 58 <= at <= 64
    requires VersionByte(board, at) == v / 0x100 && VersionByte(board, at + 1) == v % 0x100
    ensures Rd16(p, at) == v
  {
    BodyByte(board, Version, p, 34, at);
    BodyByte(board, Version, p, 34, at + 1);
    HalfOf(p, at, v);
  }

  lemma HalfOf(p: seq<Byte>, at: nat, v: U16)
    requires at + 2 <= |p| && p[at] == v / 0x100 && p[at + 1] == v % 0x100
    ensures Rd16(p, at) == v
  {}

  lemma VersionManufacturer(board: Board, p: seq<Byte>)
    requires |p| == FRAME_SIZE && BodyFrom(board, Version, p, 34)
    ensures Rd32(p, 66) == board.manufacturer
  {
    BodyByte(board, Version, p, 34, 66);
    BodyByte(board, Version, p, 34, 67);
    BodyByte(board, Version, p, 34, 68);
    BodyByte(board, Version, p, 34, 69);
    Digits(board.manufacturer);
  }

  /** Layout round trip: decoding the bytes sent from an intact buffer gives back the answer, for all four layouts,
      and everything after the checksum is zero padding. */
  lemma {:induction false} DecodeSent(board: Board, on: bool, b: Buffer, a: Answer)
    requires Intact(board, a.kind, b) && TypeFits(a)
    ensures var s := Filled(on, b, a); var sent := s[..TxLen(a.kind)];
            && Decode(sent) == Some(Response(a.instance, a.ctype, a.channel, a.code, a.reason, BodyOf(board, a),
                                             if on then OwnCompensation(a.kind, s) else Field(a.kind, b)))
            && forall i :: ChecksumAt(a.kind) + 4 <= i < |sent| ==> sent[i] == 0
  {
    var s := Filled(on, b, a);
    FilledIntact(board, on, b, a);
    FilledFields(on, b, a);
    DecodeFields(board, a, s, if on then OwnCompensation(a.kind, s) else Field(a.kind, b));
  }

  /** The fields of an answer, read from a filled buffer. */
  predicate Carries(b: Buffer, a: Answer) {
    && b[17] == a.instance && b[19] == a.channel && Rd16(b, 30) == a.code && Rd16(b, 32) == a.reason
    && (a.kind == Link || b[18] == a.ctype)
    && (a.kind == Link ==> Rd32(b, 34) == a.status && Rd32(b, 38) == a.other && Rd32(b, 42) == a.oem)
  }

  lemma FilledFields(on: bool, b: Buffer, a: Answer)
    ensures var s := Filled(on, b, a);
            Carries(s, a) && Field(a.kind, s) == if on then OwnCompensation(a.kind, s) else Field(a.kind, b)
  {
    StampHeader(b, a);
    StampKeeps(b, a);
    if a.kind == Link { StampLink(b, a); }
    SealKeeps(on, a.kind, Stamp(b, a));
    assert Field(a.kind, Stamp(b, a)) == Field(a.kind, b);
  }

  lemma DecodeFields(board: Board, a: Answer, s: Buffer, field: U32)
    requires Intact(board, a.kind, s) && TypeFits(a) && Carries(s, a) && Field(a.kind, s) == field
    ensures var sent := s[..TxLen(a.kind)];
            && Decode(sent) == Some(Response(a.instance, a.ctype, a.channel, a.code, a.reason, BodyOf(board, a), field))
            && forall i :: ChecksumAt(a.kind) + 4 <= i < |sent| ==> sent[i] == 0
  {
    var sent := s[..TxLen(a.kind)];
    DecodeHeader(board, a.kind, sent);
    DecodeStatic(board, a.kind, sent);
    PrefixReads(s, TxLen(a.kind), ChecksumAt(a.kind));
    DecodeParts(sent, PayloadLen(a.kind), BodyOf(board, a));
  }

  lemma PrefixReads(s: Buffer, n: nat, at: nat)
    requires 46 <= n <= FRAME_SIZE && at + 4 <= n
    ensures var p := s[..n];
            && p[17] == s[17] && p[18] == s[18] && p[19] == s[19]
            && Rd16(p, 30) == Rd16(s, 30) && Rd16(p, 32) == Rd16(s, 32) && Rd32(p, 34) == Rd32(s, 34)
            && Rd32(p, 38) == Rd32(s, 38) && Rd32(p, 42) == Rd32(s, 42) && Rd32(p, at) == Rd32(s, at)
  {}

  lemma DecodeParts(p: seq<Byte>, n: nat, body: Body)
    requires |p| >= HEADER_SIZE + n + 4 && n >= 4
    requires Rd16(p, 12) == ETHER_TYPE_NCSI && p[15] == 1 && DeclaredLength(p) == n && DecodeBody(p, n) == Some(body)
    ensures Decode(p) == Some(Response(p[17], p[18], p[19], Rd16(p, 30), Rd16(p, 32), body, Rd32(p, HEADER_SIZE + n)))
  {}

  // ---- The answer to a frame ----------------------------------------------------------------

  /** The transmissions among a list of hardware calls. */
  function Transmissions(calls: seq<HalCall>): seq<seq<Byte>> {
    if |calls| == 0 then []
    else (if calls[0].TxFrame? then [calls[0].bytes] else []) + Transmissions(calls[1..])
  }

  /** The answer a control frame draws from a device, if any. */
  function AnswerTo(d: Device, f: seq<Byte>, hal: Hal): Option<Answer>
    requires Readable(d, f)
  {
    match Decide(d, f)
    case Silent => None
    case Reject(code, reason, _) => Some(PlainAnswer(f, code, reason))
    case Execute(h) => Some(HandlerAnswer(Effect(Received(d.port), h, f, hal), h, f))
  }

  lemma AnswerShape(d: Device, f: seq<Byte>, hal: Hal)
    requires Readable(d, f) && AnswerTo(d, f, hal).Some?
    ensures var a := AnswerTo(d, f, hal).value;
            TypeFits(a) && a.instance == InstanceOf(f) && a.channel == ChannelIdOf(f)
            && a.ctype == ResponseType(CommandOf(f))
  {}

  lemma EffectCallsSendNothing(p: Port, h: Handler, f: seq<Byte>, hal: Hal, sent: seq<Byte>)
    requires |f| >= HEADER_SIZE + PayloadOf(h)
    ensures Transmissions(EffectCalls(p, h, f, hal) + [TxFrame(sent)]) == [sent]
  {
    NoTransmission(EffectCalls(p, h, f, hal), sent);
  }

  lemma {:induction false} NoTransmission(calls: seq<HalCall>, sent: seq<Byte>)
    requires forall c :: c in calls ==> !c.TxFrame?
    ensures Transmissions(calls + [TxFrame(sent)]) == [sent]
  {
    if |calls| > 0 {
      assert (calls + [TxFrame(sent)])[1..] == calls[1..] + [TxFrame(sent)];
      NoTransmission(calls[1..], sent);
    } else {
      assert calls + [TxFrame(sent)] == [TxFrame(sent)];
      assert [TxFrame(sent)][1..] == [];
      assert Transmissions([]) == [];
    }
  }

  /** A control frame fills one buffer and sends it, or does nothing at all. */
  lemma FrameSends(d: Device, f: seq<Byte>, hal: Hal)
    requires Readable(d, f)
    ensures match AnswerTo(d, f, hal)
            case None => HandleFrame(d, f, hal) == Outcome(d, [])
            case Some(a) =>
              var b := Filled(d.checksumOn, d.buffers.Get(a.kind), a);
              && HandleFrame(d, f, hal).dev.buffers == d.buffers.Set(a.kind, b)
              && Transmissions(HandleFrame(d, f, hal).calls) == [b[..TxLen(a.kind)]]
  {
    match Decide(d, f) {
      case Silent =>
      case Reject(code, reason, select) =>
        RejectSends(d, f, hal);
      case Execute(h) =>
        RunHandlerSends(d.(selected := true, port := Received(d.port)), h, f, hal);
    }
  }

  lemma RejectSends(d: Device, f: seq<Byte>, hal: Hal)
    requires Readable(d, f) && Decide(d, f).Reject?
    ensures var a := PlainAnswer(f, Decide(d, f).code, Decide(d, f).reason);
            var b := Filled(d.checksumOn, d.buffers.Get(a.kind), a);
            && HandleFrame(d, f, hal).dev.buffers == d.buffers.Set(a.kind, b)
            && Transmissions(HandleFrame(d, f, hal).calls) == [b[..TxLen(a.kind)]]
  {
    var r := Decide(d, f);
    TransmitSends(d.(selected := d.selected || r.select), PlainAnswer(f, r.code, r.reason), hal);
  }

  lemma RunHandlerSends(d: Device, h: Handler, f: seq<Byte>, hal: Hal)
    requires |f| >= HEADER_SIZE + PayloadOf(h)
    ensures var a := HandlerAnswer(Effect(d.port, h, f, hal), h, f);
            var b := Filled(d.checksumOn, d.buffers.Get(a.kind), a);
            && RunHandler(d, h, f, hal).dev.buffers == d.buffers.Set(a.kind, b)
            && Transmissions(RunHandler(d, h, f, hal).calls) == [b[..TxLen(a.kind)]]
  {
    var p := Effect(d.port, h, f, hal);
    var a := HandlerAnswer(p, h, f);
    TransmitSends(d.(port := p), a, hal);
    EffectCallsSendNothing(d.port, h, f, hal, Filled(d.checksumOn, d.buffers.Get(a.kind), a)[..TxLen(a.kind)]);
  }

  lemma TransmitSends(d: Device, a: Answer, hal: Hal)
    ensures var b := Filled(d.checksumOn, d.buffers.Get(a.kind), a); var o := Transmit(d, a, hal);
            && o.dev.buffers == d.buffers.Set(a.kind, b)
            && o.calls == [TxFrame(b[..TxLen(a.kind)])]
            && Transmissions(o.calls) == [b[..TxLen(a.kind)]]
  {
    var b := Filled(d.checksumOn, d.buffers.Get(a.kind), a);
    NoTransmission([], b[..TxLen(a.kind)]);
    assert [] + [TxFrame(b[..TxLen(a.kind)])] == [TxFrame(b[..TxLen(a.kind)])];
  }

  // ---- Response and reason codes ------------------------------------------------------------

  lemma AnsweredIfForUs(d: Device, f: seq<Byte>, hal: Hal)
    requires Readable(d, f)
    ensures AnswerTo(d, f, hal).Some? <==> ForUs(d, f)
  {
    HeaderByBytes(d, f);
  }

  lemma BadVlanByBytes(f: seq<Byte>)
    requires |f| >= 38
    ensures BadVlan(f) == (f[37] % 2 == 1 && Rd16(f, 32) % 0x1000 == 0)
  {
    ModHigh(f[32], f[33]);
  }

  /** What a handler answers depends on the frame only for Set VLAN Filter. */
  lemma HandlerCodes(p: Port, h: Handler, f: seq<Byte>)
    requires |f| >= HEADER_SIZE + PayloadOf(h)
    ensures var a := HandlerAnswer(p, h, f);
            (a.code, a.reason) == if h == Unknown then (3, 0x7FFF)
                                  else if h == SetVlanFilter && BadVlan(f) then (1, 0x0B07)
                                  else (0, 0)
  {
    if h == SetVlanFilter { BadVlanByBytes(f); }
  }

  lemma {:induction false} VerdictHolds(d: Device, f: seq<Byte>, hal: Hal)
    requires Readable(d, f) && ForUs(d, f) && d.channel < 31
    ensures AnswerTo(d, f, hal).Some?
    ensures var a := AnswerTo(d, f, hal).value; (a.code, a.reason) == Verdict(d, f)
  {
    AnsweredIfForUs(d, f, hal);
    match Decide(d, f) {
      case Silent =>
      case Reject(code, reason, _) => RejectVerdict(d, f);
      case Execute(h) =>
        ExecuteVerdict(d, f, h);
        HandlerCodes(Effect(Received(d.port), h, f, hal), h, f);
    }
  }

  lemma RejectVerdict(d: Device, f: seq<Byte>)
    requires |f| >= HEADER_SIZE && Decide(d, f).Reject? && d.channel < 31
    ensures (Decide(d, f).code, Decide(d, f).reason) == Verdict(d, f)
  {
    HeaderByBytes(d, f);
    TableByNumber(f[18]);
  }

  lemma ExecuteVerdict(d: Device, f: seq<Byte>, h: Handler)
    requires |f| >= HEADER_SIZE && Decide(d, f) == Execute(h) && d.channel < 31
    ensures Verdict(d, f) == if h == Unknown then (3, 0x7FFF)
                             else if h == SetVlanFilter && BadVlan(f) then (1, 0x0B07)
                             else (0, 0)
  {
    HeaderByBytes(d, f);
    TableByNumber(f[18]);
  }

  // ---- Reachable devices --------------------------------------------------------------------

  ghost predicate AllIntact(board: Board, s: Buffers) { forall k: Kind :: Intact(board, k, s.Get(k)) }

  ghost predicate Sound(board: Board, d: Device) {
    AllIntact(board, d.buffers) && d.package < 8 && d.channel < 31
  }

  lemma SetKeepsIntact(board: Board, s: Buffers, k: Kind, b: Buffer)
    requires AllIntact(board, s) && Intact(board, k, b)
    ensures AllIntact(board, s.Set(k, b))
  {
    forall j: Kind ensures Intact(board, j, s.Set(k, b).Get(j)) {
      assert s.Set(k, b).Get(j) == if j == k then b else s.Get(j);
    }
  }

  lemma SoundStep(board: Board, d: Device, x: Input)
    requires Sound(board, d)
    ensures Sound(board, Step(d, x).dev)
  {
    StepSettings(d, x);
    if IsControl(x.event) {
      var f := x.event.buf;
      FrameSends(d, f, x.hal);
      if AnswerTo(d, f, x.hal).Some? {
        var a := AnswerTo(d, f, x.hal).value;
        AnswerShape(d, f, x.hal);
        FilledIntact(board, d.checksumOn, d.buffers.Get(a.kind), a);
        SetKeepsIntact(board, d.buffers, a.kind, Filled(d.checksumOn, d.buffers.Get(a.kind), a));
      }
    }
  }

  lemma {:induction false} AlwaysSound(board: Board, tr: seq<Input>)
    ensures Sound(board, Run(Boot(board), tr))
  {
    if |tr| > 0 {
      AlwaysSound(board, tr[..|tr| - 1]);
      SoundStep(board, Run(Boot(board), tr[..|tr| - 1]), tr[|tr| - 1]);
    } else {
      forall k: Kind ensures Intact(board, k, InitialBuffers(board).Get(k)) {
        assert InitialBuffers(board).Get(k) == Template(board, k);
      }
    }
  }

  // ---- Buffer history -----------------------------------------------------------------------

  /** The buffer an input's answer is sent from: three commands have their own. */
  function SendsFrom(d: Device, x: Input): Option<Kind> {
    if !ControlFrame(x.event) || !ForUs(d, x.event.buf) then None
    else match Accepted(d, x)
      case Some(c) =>
        Some(if c == 0x0A then Link else if c == 0x15 then Version else if c == 0x16 then Capabilities else Plain)
      case None => Some(Plain)
  }

  lemma SendsAnswer(d: Device, x: Input)
    ensures SendsFrom(d, x).Some? ==>
              IsControl(x.event) && AnswerTo(d, x.event.buf, x.hal).Some?
              && AnswerTo(d, x.event.buf, x.hal).value.kind == SendsFrom(d, x).value
    ensures SendsFrom(d, x) == None ==> !IsControl(x.event) || AnswerTo(d, x.event.buf, x.hal) == None
  {
    ControlByBytes(x.event);
    if IsControl(x.event) {
      AnsweredIfForUs(d, x.event.buf, x.hal);
      FrameAccepted(d, x.event.buf);
    }
  }

  /** Input i answers from buffer k with checksums on. */
  predicate SealedSendAt(k: Kind, start: Device, tr: seq<Input>, i: nat)
    requires i < |tr|
  {
    SendsFrom(StateAt(start, tr, i), tr[i]) == Some(k) && StateAt(start, tr, i).checksumOn
  }

  /** The bytes input i puts on the wire. */
  function SentAt(start: Device, tr: seq<Input>, i: nat): seq<Byte>
    requires i < |tr|
  {
    var t := Transmissions(Step(StateAt(start, tr, i), tr[i]).calls);
    if |t| == 1 then t[0] else []
  }

  function WireCompensation(k: Kind, sent: seq<Byte>): U32 {
    if |sent| < ChecksumAt(k) then 0
    else Checksum.Compensation(Checksum.WordSum(sent, REGION_START, Region(k)))
  }

  /** The buffer an answering input sends, as it is sent. */
  function SentBuffer(d: Device, x: Input): Buffer
    requires SendsFrom(d, x).Some?
  {
    SendsAnswer(d, x);
    var a := AnswerTo(d, x.event.buf, x.hal).value;
    Filled(d.checksumOn, d.buffers.Get(a.kind), a)
  }

  lemma SentIs(d: Device, x: Input, k: Kind)
    requires SendsFrom(d, x) == Some(k)
    ensures SentAt(d, [x], 0) == SentBuffer(d, x)[..TxLen(k)]
    ensures Step(d, x).dev.buffers == d.buffers.Set(k, SentBuffer(d, x))
    ensures Field(k, SentBuffer(d, x)) ==
            if d.checksumOn then OwnCompensation(k, SentBuffer(d, x)) else Field(k, d.buffers.Get(k))
  {
    assert StateAt(d, [x], 0) == d;
    SendsAnswer(d, x);
    FrameSends(d, x.event.buf, x.hal);
    var a := AnswerTo(d, x.event.buf, x.hal).value;
    FilledFields(d.checksumOn, d.buffers.Get(k), a);
  }

  lemma SendLeaves(d: Device, x: Input, k: Kind)
    ensures var e := Step(d, x).dev;
            Field(k, e.buffers.Get(k)) ==
            if SendsFrom(d, x) == Some(k) && d.checksumOn
            then WireCompensation(k, SentAt(d, [x], 0))
            else Field(k, d.buffers.Get(k))
  {
    SendsAnswer(d, x);
    if SendsFrom(d, x).Some? {
      var j := SendsFrom(d, x).value;
      SentIs(d, x, j);
      PrefixVerifies(j, SentBuffer(d, x));
      assert d.buffers.Set(j, SentBuffer(d, x)).Get(k) == if k == j then SentBuffer(d, x) else d.buffers.Get(k);
    } else {
      QuietKeepsBuffers(d, x);
    }
  }

  lemma QuietKeepsBuffers(d: Device, x: Input)
    requires SendsFrom(d, x) == None
    ensures Step(d, x).dev.buffers == d.buffers
  {
    SendsAnswer(d, x);
    if IsControl(x.event) { FrameSends(d, x.event.buf, x.hal); }
  }

  /** Input i is the latest answer from buffer k with checksums on. */
  ghost predicate LatestSealed(k: Kind, start: Device, tr: seq<Input>, i: nat) {
    i < |tr| && SealedSendAt(k, start, tr, i) && forall j :: i < j < |tr| ==> !SealedSendAt(k, start, tr, j)
  }

  ghost predicate NeverSealed(k: Kind, start: Device, tr: seq<Input>) {
    forall i :: 0 <= i < |tr| ==> !SealedSendAt(k, start, tr, i)
  }

  lemma SealedPrefix(k: Kind, start: Device, before: seq<Input>, x: Input, i: nat)
    requires i < |before|
    ensures SealedSendAt(k, start, before + [x], i) == SealedSendAt(k, start, before, i)
    ensures SentAt(start, before + [x], i) == SentAt(start, before, i)
  {
    PrefixState(start, before, x, i);
  }

  lemma SealedNow(k: Kind, start: Device, before: seq<Input>, x: Input)
    ensures SealedSendAt(k, start, before + [x], |before|) ==
            (SendsFrom(Run(start, before), x) == Some(k) && Run(start, before).checksumOn)
  {
    assert (before + [x])[..|before|] == before;
  }

  lemma NeverSealedStep(k: Kind, start: Device, before: seq<Input>, x: Input)
    ensures NeverSealed(k, start, before + [x]) <==>
            NeverSealed(k, start, before) && !SealedSendAt(k, start, before + [x], |before|)
  {
    forall i | 0 <= i < |before| ensures SealedSendAt(k, start, before + [x], i) == SealedSendAt(k, start, before, i) {
      SealedPrefix(k, start, before, x, i);
    }
  }

  lemma LatestSealedStep(k: Kind, start: Device, before: seq<Input>, x: Input, i: nat)
    ensures LatestSealed(k, start, before + [x], i) <==>
            if SealedSendAt(k, start, before + [x], |before|) then i == |before| else LatestSealed(k, start, before, i)
  {
    forall j | 0 <= j < |before| ensures SealedSendAt(k, start, before + [x], j) == SealedSendAt(k, start, before, j) {
      SealedPrefix(k, start, before, x, j);
    }
  }

  lemma SealedStep(k: Kind, start: Device, before: seq<Input>, x: Input)
    ensures var n := |before|; var sealing := SealedSendAt(k, start, before + [x], n);
            && sealing == (SendsFrom(Run(start, before), x) == Some(k) && Run(start, before).checksumOn)
            && (NeverSealed(k, start, before + [x]) <==> NeverSealed(k, start, before) && !sealing)
            && (forall i: nat :: LatestSealed(k, start, before + [x], i) <==>
                                 if sealing then i == n else LatestSealed(k, start, before, i))
  {
    SealedNow(k, start, before, x);
    NeverSealedStep(k, start, before, x);
    forall i: nat
      ensures LatestSealed(k, start, before + [x], i) <==>
              if SealedSendAt(k, start, before + [x], |before|) then i == |before|
              else LatestSealed(k, start, before, i)
    {
      LatestSealedStep(k, start, before, x, i);
    }
  }

  /** In every run each buffer keeps its static bytes, and its checksum field is the compensation written by the
      latest answer sent from it with checksums on, or zero if there was none. Switching checksums off does not
      clear the field. */
  lemma {:induction false} BufferHistory(board: Board, tr: seq<Input>, k: Kind)
    ensures var start := Boot(board); var b := Run(start, tr).buffers.Get(k);
            && Intact(board, k, b)
            && (forall i: nat :: LatestSealed(k, start, tr, i) ==>
                                 Field(k, b) == WireCompensation(k, SentAt(start, tr, i)))
            && (NeverSealed(k, start, tr) ==> Field(k, b) == 0)
  {
    AlwaysSound(board, tr);
    var start := Boot(board);
    if |tr| == 0 {
      assert start.buffers.Get(k) == Template(board, k);
    } else {
      var n := |tr| - 1;
      var before, x := tr[..n], tr[n];
      assert tr == before + [x];
      BufferHistory(board, before, k);
      SealedStep(k, start, before, x);
      SendLeaves(Run(start, before), x, k);
      assert StateAt(start, tr, n) == Run(start, before);
      forall i: nat | LatestSealed(k, start, tr, i)
        ensures Field(k, Run(start, tr).buffers.Get(k)) == WireCompensation(k, SentAt(start, tr, i))
      {
        if i < n { SealedPrefix(k, start, before, x, i); }
      }
    }
  }

  // ---- Checksums on the wire ----------------------------------------------------------------

  /** What a receiver computes over bytes 14 up to the field, and the field. */
  function WireResidue(k: Kind, sent: seq<Byte>): U32
    requires |sent| >= FieldAt(k) + 4
  {
    Checksum.Residue(sent, 14, FieldAt(k) - 14, FieldAt(k))
  }

  lemma Positions(k: Kind)
    ensures ChecksumAt(k) == FieldAt(k) && TxLen(k) == FrameLength(k) && REGION_START == 14
  {}

  /** The region of an intact buffer never sums to 0 modulo 2^32: HeaderRevision is 1 and the region is short. */
  lemma RegionSumPositive(board: Board, k: Kind, b: Buffer)
    requires Intact(board, k, b)
    ensures 0 < Checksum.WordSum(b, REGION_START, Region(k)) < WRAP32 && OwnCompensation(k, b) != 0
  {
    var n := (Region(k) + 1) / 2;
    Checksum.WordsBound(b, REGION_START, Region(k), n);
    FirstWordCounts(b, Region(k), n);
    assert b[14] == TemplateByte(board, k, 14) && b[15] == TemplateByte(board, k, 15);
  }

  lemma {:induction false} FirstWordCounts(b: Buffer, len: nat, n: nat)
    requires REGION_START + len <= FRAME_SIZE && 1 <= n && 2 * n <= len + 1
    ensures Checksum.Words(b, REGION_START, len, n) >= Checksum.WordAt(b, REGION_START, len, 0)
  {
    if n > 1 { FirstWordCounts(b, len, n - 1); }
  }

  /** With checksums on, every answer in every run verifies at the receiver and never carries the "not calculated"
      value 0. With checksums off the field is the one the buffer already held, and the answer verifies only by the
      coincidence that this is the compensation of its new content. */
  lemma {:induction false} AnswersVerify(board: Board, tr: seq<Input>, x: Input, k: Kind)
    requires SendsFrom(Run(Boot(board), tr), x) == Some(k)
    ensures var d := Run(Boot(board), tr); var sent := SentAt(d, [x], 0);
            && |sent| == FrameLength(k)
            && (d.checksumOn ==> WireResidue(k, sent) == 0 && Word(sent, FieldAt(k)) != 0)
            && (!d.checksumOn ==> Word(sent, FieldAt(k)) == Field(k, d.buffers.Get(k)))
            && (WireResidue(k, sent) == 0 <==> Word(sent, FieldAt(k)) == WireCompensation(k, sent))
  {
    AlwaysSound(board, tr);
    SoundAnswerVerifies(board, Run(Boot(board), tr), x, k);
  }

  lemma SoundAnswerVerifies(board: Board, d: Device, x: Input, k: Kind)
    requires Sound(board, d) && SendsFrom(d, x) == Some(k)
    ensures var sent := SentAt(d, [x], 0);
            && |sent| == FrameLength(k)
            && (d.checksumOn ==> WireResidue(k, sent) == 0 && Word(sent, FieldAt(k)) != 0)
            && (!d.checksumOn ==> Word(sent, FieldAt(k)) == Field(k, d.buffers.Get(k)))
            && (WireResidue(k, sent) == 0 <==> Word(sent, FieldAt(k)) == WireCompensation(k, sent))
  {
    var s := SentBuffer(d, x);
    Positions(k);
    SentIs(d, x, k);
    SentIntact(board, d, x, k);
    RegionSumPositive(board, k, s);
    PrefixVerifies(k, s);
  }

  lemma SentIntact(board: Board, d: Device, x: Input, k: Kind)
    requires Sound(board, d) && SendsFrom(d, x) == Some(k)
    ensures Intact(board, k, SentBuffer(d, x))
  {
    SendsAnswer(d, x);
    AnswerShape(d, x.event.buf, x.hal);
    FilledIntact(board, d.checksumOn, d.buffers.Get(k), AnswerTo(d, x.event.buf, x.hal).value);
  }

  lemma PrefixVerifies(k: Kind, s: Buffer)
    ensures var sent := s[..TxLen(k)];
            && Word(sent, FieldAt(k)) == Field(k, s) && WireCompensation(k, sent) == OwnCompensation(k, s)
            && (WireResidue(k, sent) == 0 <==> Field(k, s) == OwnCompensation(k, s))
  {
    var sent := s[..TxLen(k)];
    Positions(k);
    PrefixReads(s, TxLen(k), ChecksumAt(k));
    Checksum.SameBytesSameWords(s, sent, REGION_START, Region(k), (Region(k) + 1) / 2);
    Checksum.FieldIsForced(sent, REGION_START, Region(k), ChecksumAt(k));
    WordByBytes(sent, FieldAt(k));
  }

  /** If checksums are off by default and are never switched on, every answer of the run carries the zero field. */
  lemma {:induction false} ZeroWhenNeverEnabled(board: Board, tr: seq<Input>, x: Input, k: Kind)
    requires !board.checksumDefault
    requires forall i :: 0 <= i < |tr| ==> tr[i].event != SetChecksum(true)
    requires SendsFrom(Run(Boot(board), tr), x) == Some(k)
    ensures var sent := SentAt(Run(Boot(board), tr), [x], 0);
            |sent| == FrameLength(k) && Word(sent, FieldAt(k)) == 0
  {
    forall i | 0 <= i < |tr| ensures !SealedSendAt(k, Boot(board), tr, i) {
      FlagStaysOff(board, tr[..i]);
    }
    FlagStaysOff(board, tr);
    BufferHistory(board, tr, k);
    AnswersVerify(board, tr, x, k);
  }

  lemma {:induction false} FlagStaysOff(board: Board, tr: seq<Input>)
    requires !board.checksumDefault
    requires forall i :: 0 <= i < |tr| ==> tr[i].event != SetChecksum(true)
    ensures !Run(Boot(board), tr).checksumOn
  {
    if |tr| > 0 {
      FlagStaysOff(board, tr[..|tr| - 1]);
      StepSettings(Run(Boot(board), tr[..|tr| - 1]), tr[|tr| - 1]);
    }
  }

  /** A buffer once sent with checksums on never shows the zero field again, whatever the flag becomes. */
  lemma {:induction false} OnceSealedNeverZero(board: Board, tr: seq<Input>, k: Kind)
    ensures Field(k, Run(Boot(board), tr).buffers.Get(k)) == 0 <==> NeverSealed(k, Boot(board), tr)
    decreases |tr|
  {
    BufferHistory(board, tr, k);
    if |tr| > 0 {
      var n := |tr| - 1;
      var before, x := tr[..n], tr[n];
      assert tr == before + [x];
      OnceSealedNeverZero(board, before, k);
      SealedStep(k, Boot(board), before, x);
      var d := Run(Boot(board), before);
      SendLeaves(d, x, k);
      if SendsFrom(d, x) == Some(k) { AnswersVerify(board, before, x, k); }
    }
  }
}
