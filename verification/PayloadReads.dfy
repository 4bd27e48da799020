/** Which bytes of a control frame the responder acts on: ncsi_on_rx_frame checks that 30 bytes arrived, and handlers
    then read their payload wherever the frame ended. */
module PayloadReads {
  import opened Types
  import opened Wire
  import opened Protocol
  import opened Manual
  import opened Steps
  import opened Compliance
  import opened Responses

  ghost predicate SameUpTo(f: seq<Byte>, g: seq<Byte>, n: nat) {
    n <= |f| && n <= |g| && forall i :: 0 <= i < n ==> f[i] == g[i]
  }

  /** The weakest condition on a buffer under which no read leaves it, whatever the state of the responder. A buffer of
      38 bytes always meets it, however little of it was received. */
  lemma {:induction false} AlwaysReadableExactly(f: seq<Byte>)
    ensures AlwaysReadable(f) <==> forall d: Device :: Readable(d, f)
    ensures |f| >= HEADER_SIZE + 8 ==> AlwaysReadable(f)
  {
    if !AlwaysReadable(f) && |f| >= HEADER_SIZE {
      var d := Device(ChannelIdOf(f) / 0x20, ChannelIdOf(f) % 0x20, false, false, ZERO_PORT.(ready := true),
                      InitialBuffers(Board(1, 0, 0, 0, 0, 0, 0, 0, 0, false)));
      assert Decide(d, f) == Execute(Lookup(CommandOf(f)).value.fn);
      assert !Readable(d, f);
    } else if |f| < HEADER_SIZE {
      var d := Boot(Board(1, 0, 0, 0, 0, 0, 0, 0, 0, false));
      assert !Readable(d, f);
    }
  }

  // ---- What a handler's outcome depends on --------------------------------------------------

  /** How many payload bytes a command uses. */
  function UsedBytes(c: Byte): nat {
    if c in {0x08, 0x09, 0x0B, 0x0E} then 8 else if c in {0x0C, 0x10} then 4 else 0
  }

  /** The first len bytes fix the outcome: no command is accepted, or they reach as far as its payload does. Set VLAN
      Filter (0x0B) also has enough once it sees a VLAN other than 0, which is valid whether enabled or not. */
  predicate Covers(d: Device, f: seq<Byte>, len: nat)
    requires 30 <= len <= |f|
  {
    match AcceptedFrame(d, f)
    case Some(c) => len >= 30 + UsedBytes(c) || (c == 0x0B && NonzeroVlan(f, len))
    case None => true
  }

  /** The same by handler. */
  function UsedBy(h: Handler): nat { if h == SelectPackage || h == DisableChannel then 0 else PayloadOf(h) }

  predicate CoversHandler(h: Handler, f: seq<Byte>, len: nat)
    requires HEADER_SIZE <= len <= |f|
  {
    len >= HEADER_SIZE + UsedBy(h) || (h == SetVlanFilter && NonzeroVlan(f, len))
  }

  lemma SameCover(d: Device, f: seq<Byte>, len: nat)
    requires HEADER_SIZE <= len <= |f|
    ensures Covers(d, f, len) <==> (Decide(d, f).Execute? ==> CoversHandler(Decide(d, f).fn, f, len))
  {
    FrameAccepted(d, f);
  }

  /** The received part of the VLAN field, 12 bits at bytes 32 and 33, is not 0. */
  predicate NonzeroVlan(f: seq<Byte>, len: nat)
    requires len <= |f|
  {
    (len > 32 && f[32] % 0x10 != 0) || (len > 33 && f[33] != 0)
  }

  lemma HeaderDecides(d: Device, f: seq<Byte>, g: seq<Byte>)
    requires SameUpTo(f, g, HEADER_SIZE)
    ensures Decide(d, f) == Decide(d, g) && Rd16(f, 12) == Rd16(g, 12)
    ensures |f| == |g| ==> Readable(d, f) == Readable(d, g) && AlwaysReadable(f) == AlwaysReadable(g)
  {}

  lemma EffectReads(p: Port, h: Handler, f: seq<Byte>, g: seq<Byte>, hal: Hal)
    requires |f| >= HEADER_SIZE + PayloadOf(h) && |g| >= HEADER_SIZE + PayloadOf(h)
    requires SameUpTo(f, g, HEADER_SIZE + UsedBy(h))
    ensures Effect(p, h, f, hal) == Effect(p, h, g, hal)
  {
    if h == SetMacAddress { assert MacOf(f) == MacOf(g); }
  }

  lemma CallsRead(p: Port, h: Handler, f: seq<Byte>, g: seq<Byte>, hal: Hal)
    requires |f| >= HEADER_SIZE + PayloadOf(h) && |g| >= HEADER_SIZE + PayloadOf(h)
    requires SameUpTo(f, g, HEADER_SIZE + UsedBy(h))
    ensures EffectCalls(p, h, f, hal) == EffectCalls(p, h, g, hal)
  {
    if h == SetMacAddress { assert MacOf(f) == MacOf(g); }
  }

  lemma AnswerReads(p: Port, h: Handler, f: seq<Byte>, g: seq<Byte>)
    requires |f| >= HEADER_SIZE + PayloadOf(h) && |g| >= HEADER_SIZE + PayloadOf(h)
    requires SameUpTo(f, g, HEADER_SIZE + UsedBy(h))
    ensures HandlerAnswer(p, h, f) == HandlerAnswer(p, h, g)
  {
    assert forall code, reason :: PlainAnswer(f, code, reason) == PlainAnswer(g, code, reason);
    if h == SetVlanFilter { VlanAnswerReads(p, f, g); }
  }

  lemma VlanAnswerReads(p: Port, f: seq<Byte>, g: seq<Byte>)
    requires |f| >= 38 && |g| >= 38 && SameUpTo(f, g, 38)
    ensures HandlerAnswer(p, SetVlanFilter, f) == HandlerAnswer(p, SetVlanFilter, g)
  {
    BadVlanByBytes(f);
    BadVlanByBytes(g);
  }

  lemma VlanReads(p: Port, f: seq<Byte>, g: seq<Byte>, len: nat)
    requires SameUpTo(f, g, len) && |f| >= HEADER_SIZE + 8 && |g| >= HEADER_SIZE + 8 && len >= HEADER_SIZE
    requires NonzeroVlan(f, len)
    ensures HandlerAnswer(p, SetVlanFilter, f) == HandlerAnswer(p, SetVlanFilter, g)
  {
    ModHigh(f[32], f[33]);
    ModHigh(g[32], g[33]);
  }

  lemma CoveredHandler(d: Device, h: Handler, f: seq<Byte>, g: seq<Byte>, len: nat, hal: Hal)
    requires HEADER_SIZE <= len && SameUpTo(f, g, len) && Readable(d, f) && Readable(d, g)
    requires Decide(d, f) == Execute(h) == Decide(d, g) && CoversHandler(h, f, len)
    ensures forall p :: Effect(p, h, f, hal) == Effect(p, h, g, hal)
    ensures forall p :: EffectCalls(p, h, f, hal) == EffectCalls(p, h, g, hal)
    ensures forall p :: HandlerAnswer(p, h, f) == HandlerAnswer(p, h, g)
  {
    forall p: Port
      ensures Effect(p, h, f, hal) == Effect(p, h, g, hal) && EffectCalls(p, h, f, hal) == EffectCalls(p, h, g, hal)
              && HandlerAnswer(p, h, f) == HandlerAnswer(p, h, g)
    {
      if len >= HEADER_SIZE + UsedBy(h) {
        EffectReads(p, h, f, g, hal);
        CallsRead(p, h, f, g, hal);
        AnswerReads(p, h, f, g);
      } else {
        VlanReads(p, f, g, len);
      }
    }
  }

  lemma CoveredRun(d: Device, h: Handler, f: seq<Byte>, g: seq<Byte>, len: nat, hal: Hal)
    requires HEADER_SIZE <= len && SameUpTo(f, g, len) && Readable(d, f) && Readable(d, g)
    requires Decide(d, f) == Execute(h) == Decide(d, g) && CoversHandler(h, f, len)
    ensures forall e :: RunHandler(e, h, f, hal) == RunHandler(e, h, g, hal)
  {
    CoveredHandler(d, h, f, g, len, hal);
  }

  /** Nothing past the covered bytes is acted on. A frame that runs no handler is covered by its header. */
  lemma {:induction false} CoveredBytesDecide(d: Device, f: seq<Byte>, g: seq<Byte>, len: nat, hal: Hal)
    requires HEADER_SIZE <= len && SameUpTo(f, g, len) && Readable(d, f) && Readable(d, g) && Covers(d, f, len)
    ensures HandleFrame(d, f, hal) == HandleFrame(d, g, hal)
  {
    HeaderDecides(d, f, g);
    SameCover(d, f, len);
    match Decide(d, f) {
      case Silent =>
      case Reject(code, reason, select) => assert PlainAnswer(f, code, reason) == PlainAnswer(g, code, reason);
      case Execute(h) => CoveredRun(d, h, f, g, len, hal);
    }
  }

  /** The header and the declared payload always cover what is used and read. */
  function Extent(f: seq<Byte>): nat requires |f| >= HEADER_SIZE { HEADER_SIZE + DeclaredLength(f) }

  /** Two frames that agree on the header and the declared payload have the same outcome in every state, whatever
      follows them in memory. */
  lemma {:induction false} OnlyPayloadMatters(d: Device, f: seq<Byte>, g: seq<Byte>, hal: Hal)
    requires |f| >= HEADER_SIZE && SameUpTo(f, g, Extent(f))
    ensures Readable(d, f) && Readable(d, g) && HandleFrame(d, f, hal) == HandleFrame(d, g, hal)
  {
    HeaderDecides(d, f, g);
    SameCover(d, f, Extent(f));
    CoveredBytesDecide(d, f, g, Extent(f), hal);
  }

  /** A rejected frame is not read past its header at all. */
  lemma {:induction false} RejectionReadsHeaderOnly(d: Device, f: seq<Byte>, g: seq<Byte>, hal: Hal)
    requires SameUpTo(f, g, HEADER_SIZE) && !Decide(d, f).Execute?
    ensures Readable(d, f) && Readable(d, g) && HandleFrame(d, f, hal) == HandleFrame(d, g, hal)
  {
    HeaderDecides(d, f, g);
    SameCover(d, f, HEADER_SIZE);
    CoveredBytesDecide(d, f, g, HEADER_SIZE, hal);
  }

  // ---- Uncovered bytes are acted on ---------------------------------------------------------

  /** A byte value other than v: the top bit flipped. */
  function Flip(v: Byte): Byte { if v < 0x80 then v + 0x80 else v - 0x80 }

  /** The handlers that store payload bytes in the channel record. */
  predicate Stores(h: Handler) { h in {EnableVlan, EnableBroadcastFilter, AenEnable, SetLink} }

  /** The same buffer with another value in the last payload byte the handler uses. */
  function Altered(h: Handler, f: seq<Byte>): seq<Byte>
    requires |f| >= HEADER_SIZE + UsedBy(h) && UsedBy(h) > 0
  {
    var at := HEADER_SIZE + UsedBy(h) - 1;
    f[at := if h == EnableVlan then (if f[at] == 0 then 1 else 0) else Flip(f[at])]
  }

  lemma StoredBytesDiffer(p: Port, h: Handler, f: seq<Byte>, hal: Hal)
    requires Stores(h) && |f| >= HEADER_SIZE + PayloadOf(h)
    ensures Config(Effect(p, h, f, hal)) != Config(Effect(p, h, Altered(h, f), hal))
  {}

  lemma ConfigAfter(d: Device, h: Handler, f: seq<Byte>, hal: Hal)
    requires Readable(d, f) && Decide(d, f) == Execute(h)
    ensures Config(HandleFrame(d, f, hal).dev.port) == Config(Effect(d.port, h, f, hal))
  {
    HandleFramePort(d, f, hal);
    PortAfterConfig(d, f, hal);
  }

  lemma ProgrammedEnable(d: Device, f: seq<Byte>, hal: Hal)
    requires Readable(d, f) && Decide(d, f) == Execute(SetMacAddress)
    ensures var calls := HandleFrame(d, f, hal).calls;
            |calls| > 0 && calls[0].SetMacAddr? && calls[0].enable == EnableOf(f)
  {}

  lemma AnswerCode(d: Device, f: seq<Byte>, hal: Hal)
    requires Readable(d, f) && Decide(d, f) == Execute(SetVlanFilter)
    ensures Rd16(HandleFrame(d, f, hal).dev.buffers.plain, 30) == if BadVlan(f) then FAILED else COMPLETE
  {
    FrameSends(d, f, hal);
    BadVlanByBytes(f);
    var a := AnswerTo(d, f, hal).value;
    FilledFields(d.checksumOn, d.buffers.Get(a.kind), a);
  }

  /** A buffer that agrees on the first len bytes and makes the VLAN filter invalid if it was valid, or valid if not. */
  function OtherVlan(f: seq<Byte>, len: nat): seq<Byte>
    requires len <= |f| && |f| >= 38
  {
    if BadVlan(f) then f[37 := 0]
    else f[32 := if len > 32 then f[32] else 0][33 := if len > 33 then f[33] else 0][37 := 1]
  }

  lemma OtherVlanDiffers(f: seq<Byte>, len: nat)
    requires HEADER_SIZE <= len < 38 <= |f| && !NonzeroVlan(f, len)
    ensures var g := OtherVlan(f, len); SameUpTo(f, g, len) && |g| == |f| && BadVlan(g) != BadVlan(f)
  {}

  lemma VlanLeftovers(d: Device, f: seq<Byte>, g: seq<Byte>, hal: Hal)
    requires Readable(d, f) && Readable(d, g) && Decide(d, f) == Execute(SetVlanFilter) == Decide(d, g)
    requires BadVlan(f) != BadVlan(g)
    ensures HandleFrame(d, g, hal) != HandleFrame(d, f, hal)
  {
    AnswerCode(d, f, hal);
    AnswerCode(d, g, hal);
  }

  lemma MacLeftovers(d: Device, f: seq<Byte>, g: seq<Byte>, hal: Hal)
    requires Readable(d, f) && Readable(d, g) && Decide(d, f) == Execute(SetMacAddress) == Decide(d, g)
    requires EnableOf(f) != EnableOf(g)
    ensures HandleFrame(d, g, hal) != HandleFrame(d, f, hal)
  {
    ProgrammedEnable(d, f, hal);
    ProgrammedEnable(d, g, hal);
  }

  lemma StoredLeftovers(d: Device, h: Handler, f: seq<Byte>, g: seq<Byte>, hal: Hal)
    requires Readable(d, f) && Readable(d, g) && Decide(d, f) == Execute(h) == Decide(d, g)
    requires Stores(h) && g == Altered(h, f)
    ensures HandleFrame(d, g, hal) != HandleFrame(d, f, hal)
  {
    StoredBytesDiffer(d.port, h, f, hal);
    ConfigAfter(d, h, f, hal);
    ConfigAfter(d, h, g, hal);
  }

  /** If the received bytes do not cover what the handler uses, other leftovers give another outcome. */
  lemma LeftoversDecide(d: Device, f: seq<Byte>, len: nat, hal: Hal) returns (g: seq<Byte>)
    requires HEADER_SIZE <= len <= |f| && Readable(d, f) && !Covers(d, f, len)
    ensures |g| == |f| && SameUpTo(f, g, len) && Readable(d, g) && HandleFrame(d, g, hal) != HandleFrame(d, f, hal)
  {
    SameCover(d, f, len);
    var h := Decide(d, f).fn;
    if h == SetVlanFilter {
      g := OtherVlan(f, len);
      OtherVlanDiffers(f, len);
      HeaderDecides(d, f, g);
      VlanLeftovers(d, f, g, hal);
    } else {
      g := Altered(h, f);
      HeaderDecides(d, f, g);
      if h == SetMacAddress { MacLeftovers(d, f, g, hal); } else { StoredLeftovers(d, h, f, g, hal); }
    }
  }

  // ---- Received and leftover bytes ----------------------------------------------------------

  /** The same reception into a buffer that held something else. */
  function WithLeftover(x: Input, rest: seq<Byte>): Input
    requires x.event.Rx? && |rest| == |x.event.buf| - x.event.len
  {
    var f, g := x.event.buf, x.event.buf[..x.event.len] + rest;
    if x.event.len >= HEADER_SIZE then
      HeaderDecides(Boot(Board(0, 0, 0, 0, 0, 0, 0, 0, 0, false)), f, g);
      RawInput(Rx(g, x.event.len), x.hal)
    else RawInput(Rx(g, x.event.len), x.hal)
  }

  /** The responder acts only on the bytes it received. */
  ghost predicate ActsOnReceivedBytes(d: Device, x: Input)
    requires x.event.Rx?
  {
    forall rest: seq<Byte> | |rest| == |x.event.buf| - x.event.len :: Step(d, WithLeftover(x, rest)) == Step(d, x)
  }

  /** Exactly when the responder acts only on the bytes it received: the frame is not a control frame, or it runs no
      handler, or the bytes received cover what its handler uses. */
  lemma {:induction false} ReceivedBytesExactly(d: Device, x: Input)
    requires x.event.Rx?
    ensures ActsOnReceivedBytes(d, x) <==> (ControlFrame(x.event) ==> Covers(d, x.event.buf, x.event.len))
  {
    var f, len := x.event.buf, x.event.len;
    ControlByBytes(x.event);
    if IsControl(x.event) && !Covers(d, f, len) {
      var rest := UncoveredInput(d, x);
      assert Step(d, WithLeftover(x, rest)) != Step(d, x);
    } else {
      forall rest: seq<Byte> | |rest| == |f| - len ensures Step(d, WithLeftover(x, rest)) == Step(d, x) {
        CoveredInput(d, x, rest);
      }
    }
  }

  lemma Refilled(x: Input, g: seq<Byte>)
    requires x.event.Rx? && |g| == |x.event.buf| && SameUpTo(x.event.buf, g, x.event.len)
    ensures WithLeftover(x, g[x.event.len..]) == RawInput(Rx(g, x.event.len), x.hal)
  {
    assert g == x.event.buf[..x.event.len] + g[x.event.len..];
  }

  lemma ControlStep(d: Device, x: Input)
    requires IsControl(x.event)
    ensures Step(d, x) == HandleFrame(d, x.event.buf, x.hal)
  {}

  lemma UncoveredInput(d: Device, x: Input) returns (rest: seq<Byte>)
    requires IsControl(x.event) && !Covers(d, x.event.buf, x.event.len)
    ensures |rest| == |x.event.buf| - x.event.len && Step(d, WithLeftover(x, rest)) != Step(d, x)
  {
    var g := LeftoversDecide(d, x.event.buf, x.event.len, x.hal);
    rest := g[x.event.len..];
    DifferentSteps(d, x, g);
  }

  lemma DifferentSteps(d: Device, x: Input, g: seq<Byte>)
    requires IsControl(x.event) && |g| == |x.event.buf| && SameUpTo(x.event.buf, g, x.event.len) && Readable(d, g)
    requires HandleFrame(d, g, x.hal) != HandleFrame(d, x.event.buf, x.hal)
    ensures Step(d, WithLeftover(x, g[x.event.len..])) != Step(d, x)
  {
    Refilled(x, g);
    HeaderDecides(d, x.event.buf, g);
    ControlStep(d, x);
    ControlStep(d, RawInput(Rx(g, x.event.len), x.hal));
  }

  lemma CoveredInput(d: Device, x: Input, rest: seq<Byte>)
    requires x.event.Rx? && |rest| == |x.event.buf| - x.event.len
    requires IsControl(x.event) ==> Covers(d, x.event.buf, x.event.len)
    ensures Step(d, WithLeftover(x, rest)) == Step(d, x)
  {
    var f, len := x.event.buf, x.event.len;
    var g := f[..len] + rest;
    if len >= HEADER_SIZE {
      HeaderDecides(d, f, g);
      if IsControl(x.event) {
        CoveredBytesDecide(d, f, g, len, x.hal);
      } else {
        assert f[6..12] == g[6..12] && f[..len] == g[..len];
      }
    }
  }
}
