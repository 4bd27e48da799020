/** The statistics counters over whole runs (ncsi.c stat_*). They are uint32_t and wrap. */
module Statistics {
  import opened Types
  import opened Wire
  import opened Protocol
  import opened Manual
  import opened Steps
  import opened Compliance
  import opened Runs
  import opened Responses
  import opened Passthrough

  datatype Meter = NcsiTx | NcsiRx | NetTx | NetDropped

  function Reading(m: Meter, p: Port): U32 {
    match m case NcsiTx => p.ncsiTx case NcsiRx => p.ncsiRx case NetTx => p.netTx case NetDropped => p.netDropped
  }

  /** The input is a control frame for this device, so it is answered. */
  predicate Answered(d: Device, x: Input) { ControlFrame(x.event) && ForUs(d, x.event.buf) }

  /** The input is a pass-through frame that is handed on. */
  predicate Forwards(d: Device, x: Input) {
    x.event.Rx? && x.event.len >= 30 && !ControlFrame(x.event)
    && d.port.txPassthrough && KnownSource(d.port, x.event.buf[6..12])
  }

  /** The events each counter counts: successful control answers, accepted commands, successful pass-through
      transmissions, pass-through receptions that had to be dropped. */
  predicate Ticks(m: Meter, d: Device, x: Input) {
    match m
    case NcsiTx => Answered(d, x) && x.hal.txOk
    case NcsiRx => Accepted(d, x).Some?
    case NetTx => Forwards(d, x) && x.hal.txOk
    case NetDropped => x.event.Poll? && d.port.enabled && !x.hal.rxOk
  }

  /** NCSI_init, NCSI_reload and Reset Channel zero all counters but the drop counter. */
  predicate Zeroes(m: Meter, d: Device, x: Input) { m != NetDropped && (x.event.Reload? || Resets(d, x)) }

  /** The command is counted before Reset Channel zeroes the counters, its answer after. */
  function AfterZeroing(m: Meter, d: Device, x: Input): nat {
    if m == NcsiTx && Ticks(m, d, x) then 1 else 0
  }

  lemma MeterStep(m: Meter, d: Device, x: Input)
    ensures Reading(m, Step(d, x).dev.port) ==
            if Zeroes(m, d, x) then AfterZeroing(m, d, x)
            else if Ticks(m, d, x) then Bump(Reading(m, d.port)) else Reading(m, d.port)
  {
    ControlByBytes(x.event);
    if IsControl(x.event) {
      HandleFramePort(d, x.event.buf, x.hal);
      FrameMeter(m, d, x);
    } else {
      SourceByFields(d, x);
    }
  }

  lemma SourceByFields(d: Device, x: Input)
    requires !IsControl(x.event)
    ensures x.event.Rx? && x.event.len >= HEADER_SIZE ==>
              SourceMatches(d.port.filters, x.event.buf[6..12]) == KnownSource(d.port, x.event.buf[6..12])
  {
    if x.event.Rx? && x.event.len >= HEADER_SIZE { SameSource(d.port, x.event.buf[6..12]); }
  }

  lemma FrameMeter(m: Meter, d: Device, x: Input)
    requires IsControl(x.event)
    ensures Reading(m, PortAfter(d, x.event.buf, x.hal)) ==
            if Zeroes(m, d, x) then AfterZeroing(m, d, x)
            else if Ticks(m, d, x) then Bump(Reading(m, d.port)) else Reading(m, d.port)
  {
    ControlByBytes(x.event);
    FrameAccepted(d, x.event.buf);
    AnsweredIfForUs(d, x.event.buf, x.hal);
    match Decide(d, x.event.buf) {
      case Execute(h) => EffectStatistics(m, Received(d.port), h, x.event.buf, x.hal);
      case _ =>
    }
  }

  lemma EffectStatistics(m: Meter, p: Port, h: Handler, f: seq<Byte>, hal: Hal)
    requires |f| >= HEADER_SIZE + PayloadOf(h)
    ensures Reading(m, Effect(p, h, f, hal)) == if h == ResetChannel && m != NetDropped then 0 else Reading(m, p)
  {}

  predicate TicksAt(m: Meter, start: Device, tr: seq<Input>, i: nat)
    requires i < |tr|
  {
    Ticks(m, StateAt(start, tr, i), tr[i])
  }

  /** The ticks of a counter along a run. */
  function TickBits(m: Meter, start: Device, tr: seq<Input>): (bits: seq<bool>)
    ensures |bits| == |tr| && forall i :: 0 <= i < |tr| ==> bits[i] == TicksAt(m, start, tr, i)
  {
    seq(|tr|, i requires 0 <= i < |tr| => TicksAt(m, start, tr, i))
  }

  function CountTrue(bits: seq<bool>, i: nat, j: nat): nat
    requires i <= j <= |bits|
    decreases j
  {
    if i == j then 0 else CountTrue(bits, i, j - 1) + if bits[j - 1] then 1 else 0
  }

  /** How often the counter's event happened in inputs i up to but not including j. */
  function Count(m: Meter, start: Device, tr: seq<Input>, i: nat, j: nat): nat
    requires i <= j <= |tr|
  {
    CountTrue(TickBits(m, start, tr), i, j)
  }

  predicate ZeroesAt(m: Meter, start: Device, tr: seq<Input>, i: nat)
    requires i < |tr|
  {
    Zeroes(m, StateAt(start, tr, i), tr[i])
  }

  /** None of the inputs i up to but not including j zeroes the counter. */
  predicate NoZeroing(m: Meter, start: Device, tr: seq<Input>, i: nat, j: nat)
    requires i <= j <= |tr|
    decreases j
  {
    i == j || (!ZeroesAt(m, start, tr, j - 1) && NoZeroing(m, start, tr, i, j - 1))
  }

  function ReadingAt(m: Meter, start: Device, tr: seq<Input>, i: nat): U32
    requires i <= |tr|
  {
    Reading(m, StateAt(start, tr, i).port)
  }

  /** A uint32_t that shows base at i and is incremented at every tick from there on. */
  function Display(bits: seq<bool>, base: U32, i: nat, j: nat): U32
    requires i <= j <= |bits|
    decreases j
  {
    if i == j then base
    else if bits[j - 1] then Bump(Display(bits, base, i, j - 1)) else Display(bits, base, i, j - 1)
  }

  lemma {:induction false} DisplayIsCount(bits: seq<bool>, base: U32, i: nat, j: nat)
    requires i <= j <= |bits|
    ensures Display(bits, base, i, j) == Wrap(base + CountTrue(bits, i, j))
  {
    if i == j {
      WrapSmall(base);
    } else {
      DisplayIsCount(bits, base, i, j - 1);
      BumpWrap(base + CountTrue(bits, i, j - 1));
    }
  }

  lemma {:induction false} ReadingIsDisplay(m: Meter, start: Device, tr: seq<Input>, i: nat, j: nat)
    requires i <= j <= |tr| && NoZeroing(m, start, tr, i, j)
    ensures ReadingAt(m, start, tr, j) == Display(TickBits(m, start, tr), ReadingAt(m, start, tr, i), i, j)
  {
    if i < j {
      ReadingIsDisplay(m, start, tr, i, j - 1);
      NextState(start, tr, j - 1);
      MeterStep(m, StateAt(start, tr, j - 1), tr[j - 1]);
    }
  }

  lemma CountsWhile(m: Meter, start: Device, tr: seq<Input>, i: nat, base: U32)
    requires i <= |tr| && NoZeroing(m, start, tr, i, |tr|) && ReadingAt(m, start, tr, i) == base
    ensures Reading(m, Run(start, tr).port) == Wrap(base + Count(m, start, tr, i, |tr|))
  {
    FinalReading(m, start, tr);
    ReadingIsDisplay(m, start, tr, i, |tr|);
    DisplayIsCount(TickBits(m, start, tr), base, i, |tr|);
  }

  lemma FinalReading(m: Meter, start: Device, tr: seq<Input>)
    ensures Reading(m, Run(start, tr).port) == ReadingAt(m, start, tr, |tr|)
  {
    assert tr[..|tr|] == tr;
  }

  lemma NextState(start: Device, tr: seq<Input>, i: nat)
    requires i < |tr|
    ensures StateAt(start, tr, i + 1) == Step(StateAt(start, tr, i), tr[i]).dev
  {
    assert tr[..i + 1][..i] == tr[..i];
  }

  /** Input z zeroes the counter and no later input does. */
  ghost predicate LatestZeroing(m: Meter, start: Device, tr: seq<Input>, z: nat) {
    z < |tr| && ZeroesAt(m, start, tr, z) && NoZeroing(m, start, tr, z + 1, |tr|)
  }

  /** What the zeroing input leaves, and the counter's events after it. */
  function CountSince(m: Meter, start: Device, tr: seq<Input>, z: nat): nat
    requires z < |tr|
  {
    AfterZeroing(m, StateAt(start, tr, z), tr[z]) + Count(m, start, tr, z + 1, |tr|)
  }

  /** Since its latest zeroing a counter counts its own event modulo 2^32; Reset Channel's own answer counts as a
      transmission. */
  lemma {:induction false} MeterSince(m: Meter, start: Device, tr: seq<Input>, z: nat)
    requires LatestZeroing(m, start, tr, z)
    ensures Reading(m, Run(start, tr).port) == CountSince(m, start, tr, z) % 0x1_0000_0000
  {
    WrapIsMod(CountSince(m, start, tr, z));
    AfterZeroingReading(m, start, tr, z);
    CountsWhile(m, start, tr, z + 1, AfterZeroing(m, StateAt(start, tr, z), tr[z]));
  }

  lemma AfterZeroingReading(m: Meter, start: Device, tr: seq<Input>, z: nat)
    requires z < |tr| && ZeroesAt(m, start, tr, z)
    ensures ReadingAt(m, start, tr, z + 1) == AfterZeroing(m, StateAt(start, tr, z), tr[z])
  {
    NextState(start, tr, z);
    MeterStep(m, StateAt(start, tr, z), tr[z]);
  }

  /** A counter that was never zeroed counts from power-up; the drop counter never is. */
  lemma {:induction false} MeterFromBoot(m: Meter, board: Board, tr: seq<Input>)
    requires NoZeroing(m, Boot(board), tr, 0, |tr|)
    ensures Reading(m, Run(Boot(board), tr).port) == Count(m, Boot(board), tr, 0, |tr|) % 0x1_0000_0000
  {
    WrapIsMod(Count(m, Boot(board), tr, 0, |tr|));
    assert StateAt(Boot(board), tr, 0) == Boot(board);
    CountsWhile(m, Boot(board), tr, 0, 0);
  }

  // ---- Conservation -------------------------------------------------------------------------

  /** An addressed control frame whose command is not accepted. */
  predicate Rejects(d: Device, x: Input) { Answered(d, x) && Accepted(d, x) == None }

  function Rejections(start: Device, tr: seq<Input>, i: nat, j: nat): nat
    requires i <= j <= |tr|
    decreases j
  {
    if i == j then 0
    else Rejections(start, tr, i, j - 1) + if Rejects(StateAt(start, tr, j - 1), tr[j - 1]) then 1 else 0
  }

  predicate SentOk(start: Device, tr: seq<Input>, i: nat)
    requires i < |tr|
  {
    Answered(StateAt(start, tr, i), tr[i]) ==> tr[i].hal.txOk
  }

  ghost predicate AllSent(start: Device, tr: seq<Input>, i: nat, j: nat)
    requires i <= j <= |tr|
  {
    forall k :: i <= k < j ==> SentOk(start, tr, k)
  }

  /** Every accepted command and every rejection is one answer. */
  lemma {:induction false} AnswersAreAccountedFor(start: Device, tr: seq<Input>, i: nat, j: nat)
    requires i <= j <= |tr| && AllSent(start, tr, i, j)
    ensures Count(NcsiTx, start, tr, i, j) == Count(NcsiRx, start, tr, i, j) + Rejections(start, tr, i, j)
  {
    if i < j {
      AnswersAreAccountedFor(start, tr, i, j - 1);
      assert SentOk(start, tr, j - 1);
      AcceptingAnswers(StateAt(start, tr, j - 1), tr[j - 1]);
    }
  }

  lemma AcceptingAnswers(d: Device, x: Input)
    ensures Accepted(d, x).Some? ==> Answered(d, x)
  {}

  /** Conservation modulo 2^32: if every send since the zeroing succeeds, the transmissions are the receptions plus the
      rejected addressed frames since then, plus one when the zeroing was a Reset Channel command. */
  lemma {:induction false} Conservation(start: Device, tr: seq<Input>, z: nat)
    requires LatestZeroing(NcsiTx, start, tr, z) && AllSent(start, tr, z, |tr|)
    ensures var p := Run(start, tr).port;
            p.ncsiTx == (p.ncsiRx + Rejections(start, tr, z + 1, |tr|)
                         + (if Accepted(StateAt(start, tr, z), tr[z]) == Some(0x05) then 1 else 0)) % 0x1_0000_0000
  {
    var received, rejected := CountSince(NcsiRx, start, tr, z), Rejections(start, tr, z + 1, |tr|);
    var own := if Accepted(StateAt(start, tr, z), tr[z]) == Some(0x05) then 1 else 0;
    SameZeroings(start, tr, z);
    MeterSince(NcsiRx, start, tr, z);
    MeterSince(NcsiTx, start, tr, z);
    AnswersSince(start, tr, z);
    ModSum(received, rejected + own);
  }

  lemma ModSum(n: nat, m: nat)
    ensures (n % 0x1_0000_0000 + m) % 0x1_0000_0000 == (n + m) % 0x1_0000_0000
  {
    WrapSum(n, m);
    WrapIsMod(n);
    WrapIsMod(n + m);
    WrapIsMod(Wrap(n) + m);
  }

  lemma AnswersSince(start: Device, tr: seq<Input>, z: nat)
    requires z < |tr| && ZeroesAt(NcsiTx, start, tr, z) && AllSent(start, tr, z, |tr|)
    ensures CountSince(NcsiTx, start, tr, z)
            == CountSince(NcsiRx, start, tr, z) + Rejections(start, tr, z + 1, |tr|)
               + if Accepted(StateAt(start, tr, z), tr[z]) == Some(0x05) then 1 else 0
  {
    assert SentOk(start, tr, z);
    AnswersAreAccountedFor(start, tr, z + 1, |tr|);
    ZeroingAnswer(StateAt(start, tr, z), tr[z]);
  }

  lemma SameZeroings(start: Device, tr: seq<Input>, z: nat)
    requires LatestZeroing(NcsiTx, start, tr, z)
    ensures LatestZeroing(NcsiRx, start, tr, z)
  {
    SameUnzeroed(start, tr, z + 1, |tr|);
  }

  lemma {:induction false} SameUnzeroed(start: Device, tr: seq<Input>, i: nat, j: nat)
    requires i <= j <= |tr|
    ensures NoZeroing(NcsiRx, start, tr, i, j) == NoZeroing(NcsiTx, start, tr, i, j)
  {
    if i < j { SameUnzeroed(start, tr, i, j - 1); }
  }

  lemma ZeroingAnswer(d: Device, x: Input)
    requires Zeroes(NcsiTx, d, x) && (Answered(d, x) ==> x.hal.txOk)
    ensures AfterZeroing(NcsiTx, d, x) == if Accepted(d, x) == Some(0x05) then 1 else 0
  {
    AcceptingAnswers(d, x);
  }
}
