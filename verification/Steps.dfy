/** What one step does to each part of the state, without the buffers' contents. */
module Steps {
  import opened Types
  import opened Wire
  import opened Protocol

  /** The channel record without its statistics. */
  function Config(p: Port): Port { p.(ncsiRx := 0, ncsiTx := 0, netRx := 0, netTx := 0, netDropped := 0) }

  function Sent(p: Port, hal: Hal): Port { if hal.txOk then p.(ncsiTx := Bump(p.ncsiTx)) else p }

  function Received(p: Port): Port { p.(ncsiRx := Bump(p.ncsiRx)) }

  /** The channel record after a control frame. */
  function PortAfter(d: Device, f: seq<Byte>, hal: Hal): Port
    requires Readable(d, f)
  {
    match Decide(d, f)
    case Silent => d.port
    case Reject(_, _, _) => Sent(d.port, hal)
    case Execute(h) => Sent(Effect(Received(d.port), h, f, hal), hal)
  }

  lemma HandleFramePort(d: Device, f: seq<Byte>, hal: Hal)
    requires Readable(d, f)
    ensures HandleFrame(d, f, hal).dev.port == PortAfter(d, f, hal)
  {
    match Decide(d, f) {
      case Silent =>
      case Reject(code, reason, select) => RejectPort(d, f, hal);
      case Execute(h) => RunHandlerPort(d.(selected := true, port := Received(d.port)), h, f, hal);
    }
  }

  lemma RejectPort(d: Device, f: seq<Byte>, hal: Hal)
    requires Readable(d, f) && Decide(d, f).Reject?
    ensures HandleFrame(d, f, hal).dev.port == Sent(d.port, hal)
  {
    var r := Decide(d, f);
    TransmitPort(d.(selected := d.selected || r.select), PlainAnswer(f, r.code, r.reason), hal);
  }

  lemma RunHandlerPort(d: Device, h: Handler, f: seq<Byte>, hal: Hal)
    requires |f| >= HEADER_SIZE + PayloadOf(h)
    ensures RunHandler(d, h, f, hal).dev.port == Sent(Effect(d.port, h, f, hal), hal)
  {
    var p := Effect(d.port, h, f, hal);
    TransmitPort(d.(port := p), HandlerAnswer(p, h, f), hal);
  }

  lemma TransmitPort(d: Device, a: Answer, hal: Hal)
    ensures Transmit(d, a, hal).dev.port == Sent(d.port, hal)
  {}

  /** Identity and the checksum flag change only through NCSI_init and the toggle. */
  lemma StepSettings(d: Device, x: Input)
    ensures var e := Step(d, x).dev;
            && e.package == (if x.event.Init? then x.event.package else d.package)
            && e.channel == (if x.event.Init? then x.event.channel else d.channel)
            && e.checksumOn == (if x.event.SetChecksum? then x.event.on else d.checksumOn)
  {
    if IsControl(x.event) { HandleFrameSettings(d, x.event.buf, x.hal); }
  }

  lemma HandleFrameSettings(d: Device, f: seq<Byte>, hal: Hal)
    requires Readable(d, f)
    ensures var e := HandleFrame(d, f, hal).dev;
            e.package == d.package && e.channel == d.channel && e.checksumOn == d.checksumOn
  {
    match Decide(d, f) {
      case Silent =>
      case Reject(code, reason, select) =>
      case Execute(h) =>
    }
  }

  lemma EffectIgnoresStatistics(p: Port, q: Port, h: Handler, f: seq<Byte>, hal: Hal)
    requires Config(p) == Config(q) && |f| >= HEADER_SIZE + PayloadOf(h)
    ensures Config(Effect(p, h, f, hal)) == Config(Effect(q, h, f, hal))
  {
    match h {
      case ResetChannel =>
        assert p.filters == q.filters && p.link == q.link;
      case SetMacAddress =>
        assert p.filters == q.filters;
      case GetLinkStatus =>
        assert p.link == q.link;
      case _ =>
    }
  }

  lemma PortAfterConfig(d: Device, f: seq<Byte>, hal: Hal)
    requires Readable(d, f)
    ensures Config(PortAfter(d, f, hal)) ==
            match Decide(d, f)
            case Execute(h) => Config(Effect(d.port, h, f, hal))
            case _ => Config(d.port)
  {
    match Decide(d, f) {
      case Execute(h) => EffectIgnoresStatistics(d.port, Received(d.port), h, f, hal);
      case _ =>
    }
  }

  /** Configuration changes only through executed handlers and NCSI_init. */
  lemma StepConfig(d: Device, x: Input)
    ensures Config(Step(d, x).dev.port) ==
            match Executes(d, x)
            case Some(h) => Config(Effect(d.port, h, x.event.buf, x.hal))
            case None => if x.event.Init? then Config(ResetPort(d.port)) else Config(d.port)
  {
    if IsControl(x.event) {
      ControlPort(d, x);
      PortAfterConfig(d, x.event.buf, x.hal);
    } else {
      OtherConfig(d, x);
    }
  }

  lemma ControlPort(d: Device, x: Input)
    requires IsControl(x.event)
    ensures Step(d, x).dev.port == PortAfter(d, x.event.buf, x.hal)
  {
    HandleFramePort(d, x.event.buf, x.hal);
  }

  lemma OtherConfig(d: Device, x: Input)
    requires !IsControl(x.event)
    ensures Config(Step(d, x).dev.port) == if x.event.Init? then Config(ResetPort(d.port)) else Config(d.port)
  {
    match x.event {
      case Rx(buf, len) => IgnoredConfig(d, x);
      case Poll =>
      case Reload(_) =>
      case SetChecksum(_) =>
      case Init(package, channel) => assert Step(d, x).dev.port == ResetPort(d.port);
    }
  }

  lemma IgnoredConfig(d: Device, x: Input)
    requires x.event.Rx? && !IsControl(x.event)
    ensures Config(Step(d, x).dev.port) == Config(d.port)
  {}
}
