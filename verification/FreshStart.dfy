/** Reset Channel is observationally a fresh start. */
module FreshStart {
  import opened Types
  import opened Wire
  import opened Protocol
  import opened Manual
  import opened Steps
  import opened Runs
  import opened Responses

  /** Two devices nobody outside can tell apart. MAC and type bytes of disabled slots, AEN and link settings, VLAN and
      broadcast settings, the counters and `selected` may differ. */
  ghost predicate Alike(d: Device, e: Device) {
    && d.package == e.package && d.channel == e.channel && d.checksumOn == e.checksumOn
    && AlikePorts(d.port, e.port) && AlikeBuffers(d.buffers, e.buffers)
  }

  predicate AlikePorts(p: Port, q: Port) {
    && p.ready == q.ready && p.enabled == q.enabled && p.txPassthrough == q.txPassthrough
    && p.link.(autonegEnabled := false) == q.link.(autonegEnabled := false)
    && AlikeFilters(p.filters, q.filters)
  }

  predicate AlikeFilters(s: Filters, t: Filters) {
    forall i :: 0 <= i < MAX_MAC_FILTERS ==> s[i].enabled == t[i].enabled && (s[i].enabled ==> s[i] == t[i])
  }

  /** Buffers agree on every byte that filling in an answer does not overwrite, so on their checksum bytes too. */
  ghost predicate AlikeBuffers(s: Buffers, t: Buffers) {
    forall k: Kind :: AlikeBuffer(k, s.Get(k), t.Get(k))
  }

  predicate AlikeBuffer(k: Kind, b: Buffer, c: Buffer) {
    forall i :: 0 <= i < FRAME_SIZE && !Stamped(k, i) ==> b[i] == c[i]
  }

  lemma StampErases(b: Buffer, c: Buffer, a: Answer)
    requires AlikeBuffer(a.kind, b, c)
    ensures Stamp(b, a) == Stamp(c, a)
  {}

  lemma TransmitAlike(d: Device, e: Device, a: Answer, hal: Hal)
    requires Alike(d, e)
    ensures Transmit(d, a, hal).calls == Transmit(e, a, hal).calls
    ensures Alike(Transmit(d, a, hal).dev, Transmit(e, a, hal).dev)
  {
    assert AlikeBuffer(a.kind, d.buffers.Get(a.kind), e.buffers.Get(a.kind));
    StampErases(d.buffers.Get(a.kind), e.buffers.Get(a.kind), a);
    TransmitSends(d, a, hal);
    TransmitSends(e, a, hal);
    TransmitPort(d, a, hal);
    TransmitPort(e, a, hal);
    var b := Filled(d.checksumOn, d.buffers.Get(a.kind), a);
    SetAlike(d.buffers, e.buffers, a.kind, b);
  }

  lemma SetAlike(s: Buffers, t: Buffers, k: Kind, b: Buffer)
    requires AlikeBuffers(s, t)
    ensures AlikeBuffers(s.Set(k, b), t.Set(k, b))
  {
    forall j: Kind ensures AlikeBuffer(j, s.Set(k, b).Get(j), t.Set(k, b).Get(j)) {
      assert s.Set(k, b).Get(j) == if j == k then b else s.Get(j);
      assert t.Set(k, b).Get(j) == if j == k then b else t.Get(j);
      assert AlikeBuffer(j, s.Get(j), t.Get(j));
    }
  }

  lemma EffectFiltersAlike(p: Port, q: Port, h: Handler, f: seq<Byte>, hal: Hal)
    requires AlikeFilters(p.filters, q.filters) && |f| >= HEADER_SIZE + PayloadOf(h)
    ensures AlikeFilters(Effect(p, h, f, hal).filters, Effect(q, h, f, hal).filters)
  {
    match h {
      case ResetChannel => ResetFiltersAlike(p.filters, q.filters);
      case SetMacAddress =>
        if SlotOf(f) < MAX_MAC_FILTERS {
          SlotAlike(p.filters, q.filters, SlotOf(f), MacFilter(EnableOf(f), AddressTypeOf(f), MacOf(f)));
        }
      case _ =>
    }
  }

  lemma ResetFiltersAlike(s: Filters, t: Filters)
    ensures AlikeFilters(ResetFilters(s), ResetFilters(t))
  {}

  lemma SlotAlike(s: Filters, t: Filters, k: nat, m: MacFilter)
    requires AlikeFilters(s, t) && k < MAX_MAC_FILTERS
    ensures AlikeFilters(s[k := m], t[k := m])
  {}

  lemma EffectAlike(p: Port, q: Port, h: Handler, f: seq<Byte>, hal: Hal)
    requires AlikePorts(p, q) && |f| >= HEADER_SIZE + PayloadOf(h)
    ensures AlikePorts(Effect(p, h, f, hal), Effect(q, h, f, hal))
  {
    EffectFiltersAlike(p, q, h, f, hal);
    EffectFlagsAlike(p, q, h, f, hal);
    EffectLinkAlike(p, q, h, f, hal);
  }

  lemma EffectFlagsAlike(p: Port, q: Port, h: Handler, f: seq<Byte>, hal: Hal)
    requires p.ready == q.ready && p.enabled == q.enabled && p.txPassthrough == q.txPassthrough
    requires |f| >= HEADER_SIZE + PayloadOf(h)
    ensures var r, s := Effect(p, h, f, hal), Effect(q, h, f, hal);
            r.ready == s.ready && r.enabled == s.enabled && r.txPassthrough == s.txPassthrough
  {
    EffectReady(p, h, f, hal);
    EffectReady(q, h, f, hal);
    EffectEnabled(p, h, f, hal);
    EffectEnabled(q, h, f, hal);
    EffectTx(p, h, f, hal);
    EffectTx(q, h, f, hal);
  }

  lemma EffectReady(p: Port, h: Handler, f: seq<Byte>, hal: Hal)
    requires |f| >= HEADER_SIZE + PayloadOf(h)
    ensures Effect(p, h, f, hal).ready == (h == ClearInitialState || (h != ResetChannel && p.ready))
  {}

  lemma EffectEnabled(p: Port, h: Handler, f: seq<Byte>, hal: Hal)
    requires |f| >= HEADER_SIZE + PayloadOf(h)
    ensures Effect(p, h, f, hal).enabled
            == (h == EnableChannel || (h != DisableChannel && h != ResetChannel && p.enabled))
  {}

  lemma EffectTx(p: Port, h: Handler, f: seq<Byte>, hal: Hal)
    requires |f| >= HEADER_SIZE + PayloadOf(h)
    ensures Effect(p, h, f, hal).txPassthrough
            == (h == EnableNetworkTx || (h != DisableNetworkTx && h != ResetChannel && p.txPassthrough))
  {}

  lemma EffectLinkAlike(p: Port, q: Port, h: Handler, f: seq<Byte>, hal: Hal)
    requires p.link.(autonegEnabled := false) == q.link.(autonegEnabled := false) && |f| >= HEADER_SIZE + PayloadOf(h)
    ensures var r, s := Effect(p, h, f, hal), Effect(q, h, f, hal);
            r.link.(autonegEnabled := false) == s.link.(autonegEnabled := false)
  {
    EffectLink(p, h, f, hal);
    EffectLink(q, h, f, hal);
    ReadLinkAlike(p.link, q.link, hal.phyRegister);
  }

  lemma EffectLink(p: Port, h: Handler, f: seq<Byte>, hal: Hal)
    requires |f| >= HEADER_SIZE + PayloadOf(h)
    ensures Effect(p, h, f, hal).link == if h == GetLinkStatus then ReadLink(p.link, hal.phyRegister) else p.link
  {}

  lemma ReadLinkAlike(l: LinkCache, m: LinkCache, register: I32)
    requires l.(autonegEnabled := false) == m.(autonegEnabled := false)
    ensures ReadLink(l, register) == ReadLink(m, register)
  {}

  lemma AnswersAlike(p: Port, q: Port, h: Handler, f: seq<Byte>, hal: Hal)
    requires AlikePorts(p, q) && |f| >= HEADER_SIZE + PayloadOf(h)
    ensures EffectCalls(p, h, f, hal) == EffectCalls(q, h, f, hal)
    ensures HandlerAnswer(Effect(p, h, f, hal), h, f) == HandlerAnswer(Effect(q, h, f, hal), h, f)
  {}

  lemma RunHandlerAlike(d: Device, e: Device, h: Handler, f: seq<Byte>, hal: Hal)
    requires Alike(d, e) && |f| >= HEADER_SIZE + PayloadOf(h)
    ensures RunHandler(d, h, f, hal).calls == RunHandler(e, h, f, hal).calls
    ensures Alike(RunHandler(d, h, f, hal).dev, RunHandler(e, h, f, hal).dev)
  {
    EffectAlike(d.port, e.port, h, f, hal);
    AnswersAlike(d.port, e.port, h, f, hal);
    var p, q := Effect(d.port, h, f, hal), Effect(e.port, h, f, hal);
    TransmitAlike(d.(port := p), e.(port := q), HandlerAnswer(p, h, f), hal);
  }

  lemma HandleFrameAlike(d: Device, e: Device, f: seq<Byte>, hal: Hal)
    requires Alike(d, e) && Readable(d, f) && Readable(e, f)
    ensures HandleFrame(d, f, hal).calls == HandleFrame(e, f, hal).calls
    ensures Alike(HandleFrame(d, f, hal).dev, HandleFrame(e, f, hal).dev)
  {
    assert Decide(d, f) == Decide(e, f);
    match Decide(d, f) {
      case Silent =>
      case Reject(code, reason, select) =>
        TransmitAlike(d.(selected := d.selected || select), e.(selected := e.selected || select),
                      PlainAnswer(f, code, reason), hal);
      case Execute(h) =>
        RunHandlerAlike(d.(selected := true, port := Received(d.port)), e.(selected := true, port := Received(e.port)),
                        h, f, hal);
    }
  }

  lemma SourceAlike(s: Filters, t: Filters, source: Mac)
    requires AlikeFilters(s, t)
    ensures SourceMatches(s, source) == SourceMatches(t, source)
  {
    forall i | 0 <= i < MAX_MAC_FILTERS
      ensures s[i] == MacFilter(true, 0, source) <==> t[i] == MacFilter(true, 0, source)
    {}
  }

  /** Bisimulation step: the same input makes alike devices do the same and leaves them alike. */
  lemma {:induction false} StepAlike(d: Device, e: Device, x: Input)
    requires Alike(d, e)
    ensures Step(d, x).calls == Step(e, x).calls && Alike(Step(d, x).dev, Step(e, x).dev)
  {
    if IsControl(x.event) {
      HandleFrameAlike(d, e, x.event.buf, x.hal);
    } else if x.event.Rx? {
      if x.event.len >= HEADER_SIZE { SourceAlike(d.port.filters, e.port.filters, x.event.buf[6..12]); }
    } else {
      LocalAlike(d, e, x);
    }
  }

  lemma LocalAlike(d: Device, e: Device, x: Input)
    requires Alike(d, e) && !x.event.Rx?
    ensures Step(d, x).calls == Step(e, x).calls && Alike(Step(d, x).dev, Step(e, x).dev)
  {
    match x.event {
      case Poll =>
        assert Step(d, x).dev.port.filters == d.port.filters && Step(e, x).dev.port.filters == e.port.filters;
      case Reload(force) => assert AlikePorts(ZeroCounters(d.port), ZeroCounters(e.port));
      case SetChecksum(on) =>
      case Init(package, channel) => ResetAlike(d.port, e.port);
      case Rx(_, _) =>
    }
  }

  lemma ResetAlike(p: Port, q: Port)
    requires AlikePorts(p, q)
    ensures AlikePorts(ResetPort(p), ResetPort(q))
  {}

  lemma {:induction false} RunAlike(d: Device, e: Device, tr: seq<Input>)
    requires Alike(d, e)
    ensures Calls(d, tr) == Calls(e, tr) && Alike(Run(d, tr), Run(e, tr))
  {
    if |tr| > 0 {
      RunAlike(d, e, tr[..|tr| - 1]);
      StepAlike(Run(d, tr[..|tr| - 1]), Run(e, tr[..|tr| - 1]), tr[|tr| - 1]);
    }
  }

  /** The device e was just powered up with d's straps and differs from the power-up state only in the cached link
      status, the checksum switch and the checksum fields left in the buffers, which are d's. */
  ghost predicate JustStarted(board: Board, d: Device, e: Device) {
    && e.package == d.package && e.channel == d.channel && !e.selected && e.checksumOn == d.checksumOn
    && e.port == Boot(board).port.(link := d.port.link)
    && forall k: Kind, i :: 0 <= i < 74 ==>
         e.buffers.Get(k)[i] == if FieldAt(k) <= i < FieldAt(k) + 4 then d.buffers.Get(k)[i]
                                else Boot(board).buffers.Get(k)[i]
  }

  function FreshTwin(board: Board, d: Device): Device {
    Device(d.package, d.channel, false, d.checksumOn, ZERO_PORT.(link := d.port.link),
           Buffers(WithField(board, Plain, d.buffers.plain), WithField(board, Link, d.buffers.link),
                   WithField(board, Capabilities, d.buffers.capabilities),
                   WithField(board, Version, d.buffers.version)))
  }

  /** A buffer as initialised, except that it has another buffer's checksum field. */
  function WithField(board: Board, k: Kind, b: Buffer): Buffer {
    seq(FRAME_SIZE, i requires 0 <= i < FRAME_SIZE => FieldOrTemplate(board, k, b, i))
  }

  function FieldOrTemplate(board: Board, k: Kind, b: Buffer, i: nat): Byte
    requires i < FRAME_SIZE
  {
    if FieldAt(k) <= i < FieldAt(k) + 4 then b[i] else TemplateByte(board, k, i)
  }

  lemma TwinBuffer(board: Board, d: Device, k: Kind)
    ensures FreshTwin(board, d).buffers.Get(k) == WithField(board, k, d.buffers.Get(k))
    ensures Boot(board).buffers.Get(k) == Template(board, k)
  {}

  lemma TwinJustStarted(board: Board, d: Device)
    ensures JustStarted(board, d, FreshTwin(board, d))
  {
    var e := FreshTwin(board, d);
    forall k: Kind, i | 0 <= i < 74
      ensures e.buffers.Get(k)[i] == if FieldAt(k) <= i < FieldAt(k) + 4 then d.buffers.Get(k)[i]
                                     else Boot(board).buffers.Get(k)[i]
    {
      TwinBuffer(board, d, k);
    }
  }

  lemma FieldAlike(board: Board, k: Kind, b: Buffer)
    requires Intact(board, k, b)
    ensures AlikeBuffer(k, b, WithField(board, k, b))
  {
    Positions(k);
    forall i | 0 <= i < FRAME_SIZE && !Stamped(k, i) ensures b[i] == FieldOrTemplate(board, k, b, i) {
      if !(FieldAt(k) <= i < FieldAt(k) + 4) { assert !Dynamic(k, i); }
    }
  }

  lemma ResetClears(d: Device, x: Input)
    requires Resets(d, x)
    ensures AlikePorts(Step(d, x).dev.port, ZERO_PORT.(link := Step(d, x).dev.port.link))
  {
    ResetRecord(d, x);
    SameConfigAlike(Step(d, x).dev.port, AfterReset(d.port));
  }

  lemma SameConfigAlike(p: Port, q: Port)
    requires Config(p) == Config(q)
    requires !q.ready && !q.enabled && !q.txPassthrough && forall i :: 0 <= i < 8 ==> !q.filters[i].enabled
    ensures AlikePorts(p, ZERO_PORT.(link := p.link))
  {
    assert p.filters == q.filters;
  }

  /** Whatever happened before: after NCSI_init or an executed Reset Channel, any further inputs and hardware answers
      draw exactly the transmissions, hardware calls and pass-through decisions of a device that was just started. */
  lemma {:induction false} ResetIsFreshStart(board: Board, tr: seq<Input>, x: Input, future: seq<Input>)
    requires Resets(Run(Boot(board), tr), x)
    ensures var d := Run(Boot(board), tr + [x]); var e := FreshTwin(board, d);
            JustStarted(board, d, e) && Calls(d, future) == Calls(e, future)
  {
    var d := Run(Boot(board), tr + [x]);
    RunStep(Boot(board), tr, x);
    ResetClears(Run(Boot(board), tr), x);
    AlwaysSound(board, tr + [x]);
    TwinJustStarted(board, d);
    forall k: Kind ensures AlikeBuffer(k, d.buffers.Get(k), FreshTwin(board, d).buffers.Get(k)) {
      TwinBuffer(board, d, k);
      FieldAlike(board, k, d.buffers.Get(k));
    }
    RunAlike(d, FreshTwin(board, d), future);
  }

  /** The state at power-up. */
  lemma PowerUp(board: Board)
    ensures var d := Boot(board);
            && d.package == 0 && d.channel == 0 && !d.selected && d.checksumOn == board.checksumDefault
            && d.port == Port(false, false, false, false, 0, 0, 0, 0, 0,
                              seq(8, _ => MacFilter(false, 0, [0, 0, 0, 0, 0, 0])),
                              LinkCache(false, false, false, false), 0, 0, 0, 0, 0)
            && forall k: Kind :: Intact(board, k, d.buffers.Get(k)) && Field(k, d.buffers.Get(k)) == 0
  {
    AlwaysSound(board, []);
    forall k: Kind ensures Field(k, Boot(board).buffers.Get(k)) == 0 { BufferHistory(board, [], k); }
    assert Boot(board).port.filters == seq(8, _ => MacFilter(false, 0, [0, 0, 0, 0, 0, 0]));
  }
}
