/** Packet layouts (Ethernet.h) and the four static response buffers (ncsi.c gResponseFrame and its companions). */
module Wire {
  import opened Types

  const HEADER_SIZE: nat := 30       // sizeof(ControlPacketHeader_t)
  const FRAME_SIZE: nat := 74        // sizeof(NetworkFrame_t)
  const FRAME_MIN: nat := 60         // ETHERNET_FRAME_MIN
  const REGION_START: nat := 14      // offsetof ManagmentControllerID
  const ETHER_TYPE_NCSI: U16 := 0x88F8

  type Buffer = b: seq<Byte> | |b| == 74 witness seq(74, _ => 0)
  type Mac = m: seq<Byte> | |m| == 6 witness seq(6, _ => 0)

  /** Compile-time values of ncsi_board_config.h. */
  datatype Board = Board(
    channelCount: Byte, fwMajor: Byte, fwMinor: Byte, fwPatch: Byte,
    pciDevice: U16, pciVendor: U16, pciSubDevice: U16, pciSubVendor: U16,
    manufacturer: U32, checksumDefault: bool)

  /** One response layout for each static buffer. */
  datatype Kind = Plain | Link | Capabilities | Version

  function PayloadLen(k: Kind): nat {
    match k case Plain => 4 case Link => 16 case Capabilities => 32 case Version => 40
  }

  function ChecksumAt(k: Kind): nat { HEADER_SIZE + PayloadLen(k) }

  /** MAX(sizeof(the response struct), ETHERNET_FRAME_MIN) */
  function TxLen(k: Kind): nat { Max(ChecksumAt(k) + 4, FRAME_MIN) }

  // ---- Request header accessors -------------------------------------------------------------

  function InstanceOf(f: seq<Byte>): Byte requires |f| >= HEADER_SIZE { f[17] }
  function CommandOf(f: seq<Byte>): Byte requires |f| >= HEADER_SIZE { f[18] }
  function ChannelIdOf(f: seq<Byte>): Byte requires |f| >= HEADER_SIZE { f[19] }
  function DeclaredLength(f: seq<Byte>): nat requires |f| >= HEADER_SIZE { Rd16(f, 20) % 0x1000 }

  /** The type field of a response: the request type with bit 7 set. */
  function ResponseType(command: Byte): Byte { if command < 0x80 then command + 0x80 else command }

  // ---- Static initialisers ------------------------------------------------------------------

  function TemplateType(k: Kind): Byte {
    match k case Plain => 0 case Link => 0x8A case Capabilities => 0x96 case Version => 0x95
  }

  function CapabilityByte(board: Board, i: nat): Byte {
    if i == 41 then 0xF else if i == 53 then 7 else if 54 <= i <= 57 then 1
    else if i == 60 then 7 else if i == 61 then board.channelCount else 0
  }

  function VersionByte(board: Board, i: nat): Byte {
    if i == 34 then 0xF1 else if i == 35 then 0xF2 else if i == 36 then 0xF0
    else if i == 42 then 0x4E else if i == 43 then 0x43 else if i == 44 then 0x53 else if i == 45 then 0x49
    else if 46 <= i <= 53 then 0x20
    else if i == 55 then board.fwMajor else if i == 56 then board.fwMinor else if i == 57 then board.fwPatch
    else if i == 58 then board.pciDevice / 0x100 else if i == 59 then board.pciDevice % 0x100
    else if i == 60 then board.pciVendor / 0x100 else if i == 61 then board.pciVendor % 0x100
    else if i == 62 then board.pciSubDevice / 0x100 else if i == 63 then board.pciSubDevice % 0x100
    else if i == 64 then board.pciSubVendor / 0x100 else if i == 65 then board.pciSubVendor % 0x100
    else if i == 66 then board.manufacturer / 0x100_0000 else if i == 67 then board.manufacturer / 0x1_0000 % 0x100
    else if i == 68 then board.manufacturer / 0x100 % 0x100 else if i == 69 then board.manufacturer % 0x100
    else 0
  }

  function TemplateByte(board: Board, k: Kind, i: nat): Byte {
    if i < 12 then 0xFF
    else if i == 12 then 0x88 else if i == 13 then 0xF8
    else if i == 15 then 1
    else if i == 18 then TemplateType(k)
    else if i == 21 then PayloadLen(k)
    else if i < 34 then 0
    else match k
      case Plain => 0
      case Link => 0
      case Capabilities => CapabilityByte(board, i)
      case Version => VersionByte(board, i)
  }

  function Template(board: Board, k: Kind): Buffer {
    seq(FRAME_SIZE, i requires 0 <= i < FRAME_SIZE => TemplateByte(board, k, i))
  }

  /** The bytes a response builder or the checksum may write. Get Capabilities and Get Version ID rewrite byte 18
      with the value it already has. */
  predicate Dynamic(k: Kind, i: nat) {
    i == 17 || i == 19 || 30 <= i < 34 || (k == Plain && i == 18) || (k == Link && 34 <= i < 46)
    || ChecksumAt(k) <= i < ChecksumAt(k) + 4
  }

  /** Everything else still has its initial value. */
  ghost predicate Intact(board: Board, k: Kind, b: Buffer) {
    forall i :: 0 <= i < FRAME_SIZE && !Dynamic(k, i) ==> b[i] == TemplateByte(board, k, i)
  }

  datatype Buffers = Buffers(plain: Buffer, link: Buffer, capabilities: Buffer, version: Buffer) {
    function Get(k: Kind): Buffer {
      match k case Plain => plain case Link => link case Capabilities => capabilities case Version => version
    }
    function Set(k: Kind, b: Buffer): Buffers {
      match k
      case Plain => this.(plain := b)
      case Link => this.(link := b)
      case Capabilities => this.(capabilities := b)
      case Version => this.(version := b)
    }
  }

  function InitialBuffers(board: Board): Buffers {
    Buffers(Template(board, Plain), Template(board, Link), Template(board, Capabilities), Template(board, Version))
  }

  // ---- Filling in a response ----------------------------------------------------------------

  /** What the firmware decides to answer, before it is laid out in a buffer. */
  datatype Answer = Answer(kind: Kind, instance: Byte, channel: Byte, ctype: Byte, code: U16, reason: U16,
                           status: U32, oem: U32, other: U32)

  function Stamp(b: Buffer, a: Answer): Buffer {
    var h := b[17 := a.instance][19 := a.channel];
    var t := if a.kind == Link then h else h[18 := a.ctype];
    var c := Put16(Put16(t, 30, a.code), 32, a.reason);
    if a.kind == Link then Put32(Put32(Put32(c, 34, a.status), 42, a.oem), 38, a.other) else c
  }

  // ---- Reading a response back --------------------------------------------------------------

  datatype Body =
    | NoBody
    | LinkBody(status: U32, other: U32, oem: U32)
    | CapabilitiesBody(flags: U32, broadcast: U32, multicast: U32, buffering: U32, aen: U32,
                       vlanFilters: Byte, mixedFilters: Byte, multicastFilters: Byte, unicastFilters: Byte,
                       vlanModes: Byte, channels: Byte)
    | VersionBody(major: Byte, minor: Byte, update: Byte, alpha1: Byte, alpha2: Byte, name: seq<Byte>,
                  firmware: U32, pciDevice: U16, pciVendor: U16, pciSubDevice: U16, pciSubVendor: U16,
                  manufacturer: U32)

  datatype Response = Response(instance: Byte, ctype: Byte, channel: Byte, code: U16, reason: U16, body: Body,
                               checksum: U32)

  /** A receiver's reading of a packet by the tables of section 8.4 of DSP0222, from the bytes alone. */
  function Decode(p: seq<Byte>): Option<Response> {
    if |p| < HEADER_SIZE || Rd16(p, 12) != ETHER_TYPE_NCSI || p[15] != 1 then None
    else
      var n := DeclaredLength(p);
      if |p| < HEADER_SIZE + n + 4 || n < 4 then None
      else match DecodeBody(p, n)
        case None => None
        case Some(body) => Some(Response(p[17], p[18], p[19], Rd16(p, 30), Rd16(p, 32), body, Rd32(p, HEADER_SIZE + n)))
  }

  function DecodeBody(p: seq<Byte>, n: nat): Option<Body>
    requires |p| >= HEADER_SIZE + n + 4
  {
    if n == 4 then Some(NoBody)
    else if n == 16 then Some(LinkBody(Rd32(p, 34), Rd32(p, 38), Rd32(p, 42)))
    else if n == 32 then Some(CapabilitiesBody(Rd32(p, 34), Rd32(p, 38), Rd32(p, 42), Rd32(p, 46), Rd32(p, 50),
                                               p[54], p[55], p[56], p[57], p[60], p[61]))
    else if n == 40 then Some(VersionBody(p[34], p[35], p[36], p[37], p[41], p[42..54], Rd32(p, 54),
                                          Rd16(p, 58), Rd16(p, 60), Rd16(p, 62), Rd16(p, 64), Rd32(p, 66)))
    else None
  }

  /** The firmware name string "NCSI" padded with blanks to 12 characters. */
  function FirmwareName(): seq<Byte> {
    [0x4E, 0x43, 0x53, 0x49, 0x20, 0x20, 0x20, 0x20, 0x20, 0x20, 0x20, 0x20]
  }

  /** The content an answer is meant to carry. */
  function BodyOf(board: Board, a: Answer): Body {
    match a.kind
    case Plain => NoBody
    case Link => LinkBody(a.status, a.other, a.oem)
    case Capabilities => CapabilitiesBody(0, 0xF, 0, 0, 7, 1, 1, 1, 1, 7, board.channelCount)
    case Version => VersionBody(0xF1, 0xF2, 0xF0, 0, 0, FirmwareName(),
                                (board.fwMajor as int) * 0x1_0000 + (board.fwMinor as int) * 0x100
                                + board.fwPatch as int,
                                board.pciDevice, board.pciVendor, board.pciSubDevice, board.pciSubVendor,
                                board.manufacturer)
  }
}
