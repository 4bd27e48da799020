/** What a run leaves behind: every piece of channel configuration is determined by the most recent inputs about it. */
module Runs {
  import opened Types
  import opened Wire
  import opened Protocol
  import opened Manual
  import opened Steps
  import opened Compliance

  function StateAt(start: Device, tr: seq<Input>, i: nat): Device
    requires i <= |tr|
  {
    Run(start, tr[..i])
  }

  /** NCSI_init, or an accepted Reset Channel command. */
  predicate Resets(d: Device, x: Input) { x.event.Init? || Accepted(d, x) == Some(0x05) }

  /** The channel record after a reset, apart from the statistics. */
  lemma ResetRecord(d: Device, x: Input)
    requires Resets(d, x)
    ensures Config(Step(d, x).dev.port) == Config(AfterReset(d.port))
  {
    StepRecord(d, x);
  }

  // ---- Facts and the inputs that begin and end them -----------------------------------------

  datatype Fact =
    | Ready
    | Enabled
    | TxEnabled
    | VlanOn
    | BroadcastIs(settings: U32)
    | SlotIs(slot: nat, filter: MacFilter)
    | AenIs(id: Byte, control: U32)
    | LinkSettingsAre(link: U32, oem: U32)
    | LinkUp

  predicate Holds(f: Fact, d: Device) { HoldsIn(f, d.port) }

  predicate HoldsIn(f: Fact, p: Port) {
    match f
    case Ready => p.ready
    case Enabled => p.enabled
    case TxEnabled => p.txPassthrough
    case VlanOn => p.vlanEnabled
    case BroadcastIs(v) => p.broadcastSettings == v
    case SlotIs(k, m) => k < 8 && m.enabled && p.filters[k] == m
    case AenIs(id, control) => p.aenMcId == id && p.aenControl == control
    case LinkSettingsAre(link, oem) => p.linkSettings == link && p.oemLinkSettings == oem
    case LinkUp => p.link.up
  }

  /** Command c with this frame makes the fact true. */
  predicate Establishes(f: Fact, c: Byte, frame: seq<Byte>, hal: Hal)
    requires Complete(c, frame)
  {
    match f
    case Ready => c == 0x00
    case Enabled => c == 0x03
    case TxEnabled => c == 0x06
    case VlanOn => c == 0x0C && frame[33] != 0
    case BroadcastIs(v) => (c == 0x10 && Word(frame, 30) == v) || (v == 0 && (c == 0x11 || c == 0x05))
    case SlotIs(k, m) =>
      k < 8 && m.enabled && c == 0x0E && frame[36] as int == (if k == 0 && frame[36] == 0 then 0 else k + 1)
      && frame[37] >= 128 && m.addressType == frame[37] % 8 && m.mac == frame[30..36]
    case AenIs(id, control) => c == 0x08 && frame[33] == id && Word(frame, 34) == control
    case LinkSettingsAre(link, oem) => c == 0x09 && Word(frame, 30) == link && Word(frame, 34) == oem
    case LinkUp => c == 0x0A && hal.phyRegister >= 0 && hal.phyRegister % 8 >= 4
  }

  /** Command c with this frame overrules the fact. */
  predicate Overrules(f: Fact, c: Byte, frame: seq<Byte>, hal: Hal)
    requires Complete(c, frame)
  {
    match f
    case Ready => c == 0x05
    case Enabled => c == 0x04 || c == 0x05
    case TxEnabled => c == 0x07 || c == 0x05
    case VlanOn => c == 0x0C || c == 0x0D || c == 0x05
    case BroadcastIs(v) => c == 0x10 || c == 0x11 || c == 0x05
    case SlotIs(k, m) => (c == 0x0E && (frame[36] as int == k + 1 || (k == 0 && frame[36] == 0))) || c == 0x05
    case AenIs(id, control) => c == 0x08
    case LinkSettingsAre(link, oem) => c == 0x09
    case LinkUp => c == 0x0A && hal.phyRegister >= 0
  }

  /** A reset does not touch AEN settings, link settings or the cached link status. */
  predicate SurvivesReset(f: Fact) { f.AenIs? || f.LinkSettingsAre? || f.LinkUp? }

  predicate Begins(f: Fact, d: Device, x: Input) {
    match Accepted(d, x)
    case Some(c) => Establishes(f, c, x.event.buf, x.hal)
    case None => x.event.Init? && f == BroadcastIs(0)
  }

  predicate Ends(f: Fact, d: Device, x: Input) {
    match Accepted(d, x)
    case Some(c) => Overrules(f, c, x.event.buf, x.hal)
    case None => x.event.Init? && !SurvivesReset(f)
  }

  predicate BeginsAt(f: Fact, start: Device, tr: seq<Input>, i: nat)
    requires i < |tr|
  {
    Begins(f, StateAt(start, tr, i), tr[i])
  }

  predicate EndsAt(f: Fact, start: Device, tr: seq<Input>, i: nat)
    requires i < |tr|
  {
    Ends(f, StateAt(start, tr, i), tr[i])
  }

  /** Input i begins the fact and no later input ends it. */
  ghost predicate LatestBegins(f: Fact, start: Device, tr: seq<Input>, i: nat) {
    i < |tr| && BeginsAt(f, start, tr, i) && forall j :: i < j < |tr| ==> !EndsAt(f, start, tr, j)
  }

  ghost predicate Since(f: Fact, start: Device, tr: seq<Input>) {
    exists i :: LatestBegins(f, start, tr, i)
  }

  lemma PrefixState(start: Device, tr: seq<Input>, x: Input, i: nat)
    requires i <= |tr|
    ensures StateAt(start, tr + [x], i) == StateAt(start, tr, i)
  {
    assert (tr + [x])[..i] == tr[..i];
  }

  lemma LatestBeginsStep(f: Fact, start: Device, tr: seq<Input>, x: Input, i: nat)
    requires i < |tr|
    ensures LatestBegins(f, start, tr + [x], i) <==> LatestBegins(f, start, tr, i) && !Ends(f, Run(start, tr), x)
  {
    var longer := tr + [x];
    assert tr[..|tr|] == tr;
    PrefixState(start, tr, x, i);
    PrefixState(start, tr, x, |tr|);
    assert EndsAt(f, start, longer, |tr|) == Ends(f, Run(start, tr), x);
    forall j | 0 <= j < |tr| ensures EndsAt(f, start, longer, j) == EndsAt(f, start, tr, j) {
      PrefixState(start, tr, x, j);
    }
  }

  lemma SinceStep(f: Fact, start: Device, tr: seq<Input>, x: Input)
    ensures Since(f, start, tr + [x]) <==>
            Begins(f, Run(start, tr), x) || (Since(f, start, tr) && !Ends(f, Run(start, tr), x))
  {
    var longer := tr + [x];
    assert tr[..|tr|] == tr;
    PrefixState(start, tr, x, |tr|);
    assert BeginsAt(f, start, longer, |tr|) == Begins(f, Run(start, tr), x);
    if Begins(f, Run(start, tr), x) {
      assert LatestBegins(f, start, longer, |tr|);
    }
    forall i: nat | i < |tr|
      ensures LatestBegins(f, start, longer, i) <==> LatestBegins(f, start, tr, i) && !Ends(f, Run(start, tr), x)
    {
      LatestBeginsStep(f, start, tr, x, i);
    }
  }

  /** One input changes a fact exactly as Begins and Ends say. */
  lemma FactStep(f: Fact, d: Device, x: Input)
    ensures Holds(f, Step(d, x).dev) <==> Begins(f, d, x) || (Holds(f, d) && !Ends(f, d, x))
  {
    var q := Step(d, x).dev.port;
    StepRecord(d, x);
    match Accepted(d, x) {
      case Some(c) =>
        ConfigDecides(f, q, Record(d.port, c, x.event.buf, x.hal));
        FactRecord(f, d.port, c, x.event.buf, x.hal);
      case None =>
        if x.event.Init? {
          ConfigDecides(f, q, AfterReset(d.port));
          FactReset(f, d.port);
        } else {
          ConfigDecides(f, q, d.port);
        }
    }
  }

  lemma ConfigDecides(f: Fact, p: Port, q: Port)
    requires Config(p) == Config(q)
    ensures HoldsIn(f, p) == HoldsIn(f, q)
  {}

  lemma FactReset(f: Fact, p: Port)
    ensures HoldsIn(f, AfterReset(p)) <==> f == BroadcastIs(0) || (SurvivesReset(f) && HoldsIn(f, p))
  {
    if f.SlotIs? && f.slot < 8 { assert !AfterReset(p).filters[f.slot].enabled; }
  }

  lemma FactRecord(f: Fact, p: Port, c: Byte, frame: seq<Byte>, hal: Hal)
    requires Complete(c, frame)
    ensures HoldsIn(f, Record(p, c, frame, hal)) <==>
            Establishes(f, c, frame, hal) || (HoldsIn(f, p) && !Overrules(f, c, frame, hal))
  {
    if c == 0x05 {
      FactReset(f, p);
    } else if f.SlotIs? {
      SlotRecord(f, p, c, frame, hal);
    } else if f.BroadcastIs? {
      BroadcastRecord(f, p, c, frame, hal);
    } else if f.AenIs? || f.LinkSettingsAre? {
      SettingsRecord(f, p, c, frame, hal);
    } else {
      FlagRecord(f, p, c, frame, hal);
    }
  }

  lemma FlagRecord(f: Fact, p: Port, c: Byte, frame: seq<Byte>, hal: Hal)
    requires Complete(c, frame) && c != 0x05
    requires f.Ready? || f.Enabled? || f.TxEnabled? || f.VlanOn? || f.LinkUp?
    ensures HoldsIn(f, Record(p, c, frame, hal)) <==>
            Establishes(f, c, frame, hal) || (HoldsIn(f, p) && !Overrules(f, c, frame, hal))
  {}

  lemma BroadcastRecord(f: Fact, p: Port, c: Byte, frame: seq<Byte>, hal: Hal)
    requires Complete(c, frame) && c != 0x05 && f.BroadcastIs?
    ensures HoldsIn(f, Record(p, c, frame, hal)) <==>
            Establishes(f, c, frame, hal) || (HoldsIn(f, p) && !Overrules(f, c, frame, hal))
  {}

  lemma SettingsRecord(f: Fact, p: Port, c: Byte, frame: seq<Byte>, hal: Hal)
    requires Complete(c, frame) && c != 0x05 && (f.AenIs? || f.LinkSettingsAre?)
    ensures HoldsIn(f, Record(p, c, frame, hal)) <==>
            Establishes(f, c, frame, hal) || (HoldsIn(f, p) && !Overrules(f, c, frame, hal))
  {}

  lemma SlotRecord(f: Fact, p: Port, c: Byte, frame: seq<Byte>, hal: Hal)
    requires Complete(c, frame) && f.SlotIs? && c != 0x05
    ensures HoldsIn(f, Record(p, c, frame, hal)) <==>
            Establishes(f, c, frame, hal) || (HoldsIn(f, p) && !Overrules(f, c, frame, hal))
  {
    if c != 0x0E {
      assert Record(p, c, frame, hal).filters == p.filters;
    }
  }

  ghost predicate NeverEnded(f: Fact, start: Device, tr: seq<Input>) {
    forall i :: 0 <= i < |tr| ==> !EndsAt(f, start, tr, i)
  }

  lemma NeverEndedStep(f: Fact, start: Device, tr: seq<Input>, x: Input)
    ensures NeverEnded(f, start, tr + [x]) <==> NeverEnded(f, start, tr) && !Ends(f, Run(start, tr), x)
  {
    var longer := tr + [x];
    assert tr[..|tr|] == tr;
    forall i | 0 <= i < |tr| ensures EndsAt(f, start, longer, i) == EndsAt(f, start, tr, i) {
      PrefixState(start, tr, x, i);
    }
    PrefixState(start, tr, x, |tr|);
    assert EndsAt(f, start, longer, |tr|) == Ends(f, Run(start, tr), x);
  }

  /** A fact holds after a run if and only if an input that begins it is more recent than every input that ends it, or
      it held at the start and nothing ended it. */
  lemma {:induction false} FactHistory(f: Fact, start: Device, tr: seq<Input>)
    ensures Holds(f, Run(start, tr)) <==> Since(f, start, tr) || (Holds(f, start) && NeverEnded(f, start, tr))
  {
    if |tr| > 0 {
      var before, x := tr[..|tr| - 1], tr[|tr| - 1];
      assert tr == before + [x];
      FactHistory(f, start, before);
      SinceStep(f, start, before, x);
      NeverEndedStep(f, start, before, x);
      FactStep(f, Run(start, before), x);
    }
  }

  // ---- The Initial State --------------------------------------------------------------------

  predicate AllOff(p: Port) {
    !p.enabled && !p.txPassthrough && !p.vlanEnabled && p.broadcastSettings == 0
    && forall i :: 0 <= i < 8 ==> !p.filters[i].enabled
  }

  /** What every reachable channel record satisfies. */
  predicate Safe(p: Port) {
    && (!p.ready ==> AllOff(p))
    && p.link.up == p.link.hcd && !p.link.autonegComplete
    && p.netRx == 0
  }

  lemma SafeStep(d: Device, x: Input)
    requires Safe(d.port)
    ensures Safe(Step(d, x).dev.port)
  {
    var q := Step(d, x).dev.port;
    StepRecord(d, x);
    NetRxStays(d, x);
    match Accepted(d, x) {
      case Some(c) => SafeRecord(d, x, c);
      case None =>
    }
    assert Safe(Config(q).(netRx := q.netRx)) == Safe(q);
  }

  lemma NetRxStays(d: Device, x: Input)
    requires d.port.netRx == 0
    ensures Step(d, x).dev.port.netRx == 0
  {
    if IsControl(x.event) {
      HandleFramePort(d, x.event.buf, x.hal);
      FrameNetRx(d, x.event.buf, x.hal);
    }
  }

  lemma FrameNetRx(d: Device, f: seq<Byte>, hal: Hal)
    requires Readable(d, f) && d.port.netRx == 0
    ensures PortAfter(d, f, hal).netRx == 0
  {
    match Decide(d, f) {
      case Execute(h) => NetRxEffect(d.port, h, f, hal);
      case _ =>
    }
  }

  lemma NetRxEffect(p: Port, h: Handler, f: seq<Byte>, hal: Hal)
    requires p.netRx == 0 && |f| >= HEADER_SIZE + PayloadOf(h)
    ensures Effect(Received(p), h, f, hal).netRx == 0
  {}

  /** In the Initial State only Clear Initial State and the package commands are accepted. */
  lemma AcceptedWhenNotReady(d: Device, x: Input)
    requires Accepted(d, x).Some? && !d.port.ready
    ensures Accepted(d, x).value <= 0x02
  {}

  lemma SafeRecord(d: Device, x: Input, c: Byte)
    requires Accepted(d, x) == Some(c) && Safe(d.port)
    ensures Safe(Record(d.port, c, x.event.buf, x.hal))
  {
    var q := Record(d.port, c, x.event.buf, x.hal);
    RecordFlags(d.port, c, x.event.buf, x.hal);
    if !d.port.ready {
      AcceptedWhenNotReady(d, x);
      assert c != 0x00 ==> q == d.port;
    } else if c == 0x05 {
      assert AllOff(q);
    }
  }

  lemma RecordFlags(p: Port, c: Byte, f: seq<Byte>, hal: Hal)
    requires Complete(c, f) && p.link.up == p.link.hcd && !p.link.autonegComplete && p.netRx == 0
    ensures var q := Record(p, c, f, hal);
            && q.link.up == q.link.hcd && !q.link.autonegComplete && q.netRx == 0
            && q.ready == (c == 0x00 || (p.ready && c != 0x05))
  {
    FactRecord(Ready, p, c, f, hal);
    RecordLink(p, c, f, hal);
    RecordNetRx(p, c, f, hal);
  }

  lemma RecordLink(p: Port, c: Byte, f: seq<Byte>, hal: Hal)
    requires Complete(c, f)
    ensures Record(p, c, f, hal).link == if c == 0x0A then RefreshedLink(p.link, hal.phyRegister) else p.link
  {}

  lemma RecordNetRx(p: Port, c: Byte, f: seq<Byte>, hal: Hal)
    requires Complete(c, f) && p.netRx == 0
    ensures Record(p, c, f, hal).netRx == 0
  {}

  lemma {:induction false} AlwaysSafe(board: Board, tr: seq<Input>)
    ensures Safe(Run(Boot(board), tr).port)
  {
    if |tr| > 0 {
      AlwaysSafe(board, tr[..|tr| - 1]);
      SafeStep(Run(Boot(board), tr[..|tr| - 1]), tr[|tr| - 1]);
    }
  }

  /** Initial-state safety over every run. `ready` says that an accepted Clear Initial State is more recent than any
      reset. Without it everything is off, and the next input leaves the whole configuration as it is unless it is an
      accepted Clear Initial State, which changes `ready` and nothing else. */
  lemma {:induction false} InitialState(board: Board, tr: seq<Input>, x: Input)
    ensures var d := Run(Boot(board), tr);
            && (d.port.ready <==> Since(Ready, Boot(board), tr))
            && (!d.port.ready ==> AllOff(d.port))
            && (!d.port.ready ==>
                  Config(Step(d, x).dev.port) == Config(d.port).(ready := Accepted(d, x) == Some(0x00)))
  {
    var d := Run(Boot(board), tr);
    FactHistory(Ready, Boot(board), tr);
    AlwaysSafe(board, tr);
    if !d.port.ready { NotReadyStep(d, x); }
  }

  lemma NotReadyStep(d: Device, x: Input)
    requires !d.port.ready && AllOff(d.port)
    ensures Config(Step(d, x).dev.port) == Config(d.port).(ready := Accepted(d, x) == Some(0x00))
  {
    StepRecord(d, x);
    if Accepted(d, x).Some? {
      AcceptedWhenNotReady(d, x);
    } else if x.event.Init? {
      assert AfterReset(d.port).filters == d.port.filters;
    }
  }

  // ---- Network to BMC -----------------------------------------------------------------------

  /** A poll of the network side forwards one packet exactly if an executed Enable Channel is more recent than every
      Disable Channel and reset, and otherwise touches nothing; a refused packet is counted as dropped. */
  lemma {:induction false} PollHistory(board: Board, tr: seq<Input>, x: Input)
    requires x.event.Poll?
    ensures var start := Boot(board); var d := Run(start, tr); var o := Step(d, x);
            if Since(Enabled, start, tr)
            then o.calls == [PassthroughRx]
                 && o.dev.port.netDropped == (if x.hal.rxOk then d.port.netDropped else Bump(d.port.netDropped))
            else o == Outcome(d, [])
  {
    FactHistory(Enabled, Boot(board), tr);
  }
}
