/** Answers sent after checksums are switched off (ncsi.c NCSI_SetComputeChecksum, NCSI_APPLY_CHECKSUM_IF_ENABLED): the
    static buffer still carries the field of the latest answer that was sealed in it. */
module ChecksumToggle {
  import opened Types
  import opened Wire
  import opened Protocol
  import opened Manual
  import opened Compliance
  import opened Runs
  import opened Responses
  import Checksum

  // ---- The sum of a packet in terms of its answer -------------------------------------------

  function Halves(v: U32): nat { v / 0x1_0000 + v % 0x1_0000 }

  function HeaderDigest(instance: Byte, ctype: Byte, channel: Byte, code: U16, reason: U16): nat {
    (instance as int) + 0x100 * (ctype as int) + (channel as int) + (code as int) + (reason as int)
  }

  /** What an answer adds to the word sum of its packet. */
  function Digest(a: Answer): nat {
    HeaderDigest(a.instance, a.ctype, a.channel, a.code, a.reason)
    + if a.kind == Link then Halves(a.status) + Halves(a.other) + Halves(a.oem) else 0
  }

  /** An answer's share of word j of the checksummed region. */
  function AnswerWord(a: Answer, j: nat): nat {
    if j == 1 then a.instance
    else if j == 2 then 0x100 * (a.ctype as int) + (a.channel as int)
    else if j == 8 then a.code
    else if j == 9 then a.reason
    else if a.kind == Link then LinkWord(a, j)
    else 0
  }

  function LinkWord(a: Answer, j: nat): nat {
    if j == 10 then a.status / 0x1_0000 else if j == 11 then a.status % 0x1_0000
    else if j == 12 then a.other / 0x1_0000 else if j == 13 then a.other % 0x1_0000
    else if j == 14 then a.oem / 0x1_0000 else if j == 15 then a.oem % 0x1_0000
    else 0
  }

  /** The layout's share of word j. */
  function StaticWord(board: Board, k: Kind, j: nat): nat {
    if j in {1, 2, 8, 9} || (k == Link && 10 <= j < 16) then 0
    else Be16(TemplateByte(board, k, REGION_START + 2 * j), TemplateByte(board, k, REGION_START + 2 * j + 1))
  }

  lemma HalvesOf(p: seq<Byte>, at: nat, v: U32)
    requires at + 4 <= |p| && Rd32(p, at) == v
    ensures Rd16(p, at) == v / 0x1_0000 && Rd16(p, at + 2) == v % 0x1_0000
  {
    assert v == Rd16(p, at) * 0x1_0000 + Rd16(p, at + 2);
  }

  lemma LinkWordIs(b: Buffer, a: Answer, j: nat)
    requires a.kind == Link && Carries(b, a) && 10 <= j < 16
    ensures Rd16(b, REGION_START + 2 * j) == LinkWord(a, j)
  {
    HalvesOf(b, 34, a.status);
    HalvesOf(b, 38, a.other);
    HalvesOf(b, 42, a.oem);
  }

  lemma HeaderWordIs(b: Buffer, a: Answer, j: nat)
    requires Carries(b, a) && b[16] == 0 && b[18] == a.ctype && j in {1, 2, 8, 9}
    ensures Rd16(b, REGION_START + 2 * j) == AnswerWord(a, j)
  {}

  lemma StaticByte(board: Board, k: Kind, b: Buffer, i: nat)
    requires Intact(board, k, b) && i < FRAME_SIZE && !Dynamic(k, i)
    ensures b[i] == TemplateByte(board, k, i)
  {}

  lemma StaticWordIs(board: Board, b: Buffer, a: Answer, j: nat)
    requires Intact(board, a.kind, b) && 2 * j < Region(a.kind)
    requires j !in {1, 2, 8, 9} && (a.kind == Link ==> j < 10)
    ensures Rd16(b, REGION_START + 2 * j) == StaticWord(board, a.kind, j) && AnswerWord(a, j) == 0
  {
    StaticByte(board, a.kind, b, REGION_START + 2 * j);
    StaticByte(board, a.kind, b, REGION_START + 2 * j + 1);
  }

  lemma TypeByte(board: Board, b: Buffer, a: Answer)
    requires Intact(board, a.kind, b) && Carries(b, a) && TypeFits(a)
    ensures b[16] == 0 && b[18] == a.ctype
  {
    StaticByte(board, a.kind, b, 16);
    if a.kind == Link { StaticByte(board, Link, b, 18); }
  }

  lemma RegionIsEven(k: Kind)
    ensures Region(k) % 2 == 0 && (Region(k) + 1) / 2 == Region(k) / 2
  {}

  lemma WholeWord(b: Buffer, k: Kind, j: nat)
    requires 2 * j < Region(k)
    ensures Checksum.WordAt(b, REGION_START, Region(k), j) == Rd16(b, REGION_START + 2 * j)
  {
    RegionIsEven(k);
  }

  lemma WordIs(board: Board, b: Buffer, a: Answer, j: nat)
    requires Intact(board, a.kind, b) && Carries(b, a) && TypeFits(a) && 2 * j < Region(a.kind)
    ensures Checksum.WordAt(b, REGION_START, Region(a.kind), j) == StaticWord(board, a.kind, j) + AnswerWord(a, j)
  {
    WholeWord(b, a.kind, j);
    if j in {1, 2, 8, 9} {
      TypeByte(board, b, a);
      HeaderWordIs(b, a, j);
    } else if a.kind == Link && 10 <= j {
      LinkWordIs(b, a, j);
    } else {
      StaticWordIs(board, b, a, j);
    }
  }

  function StaticSum(board: Board, k: Kind, n: nat): nat {
    if n == 0 then 0 else StaticSum(board, k, n - 1) + StaticWord(board, k, n - 1)
  }

  function AnswerSum(a: Answer, n: nat): nat {
    if n == 0 then 0 else AnswerSum(a, n - 1) + AnswerWord(a, n - 1)
  }

  lemma {:induction false} SumSplits(board: Board, b: Buffer, a: Answer, n: nat)
    requires Intact(board, a.kind, b) && Carries(b, a) && TypeFits(a) && 2 * n <= Region(a.kind)
    ensures Checksum.Words(b, REGION_START, Region(a.kind), n) == StaticSum(board, a.kind, n) + AnswerSum(a, n)
  {
    if n > 0 {
      SumSplits(board, b, a, n - 1);
      WordIs(board, b, a, n - 1);
    }
  }

  /** The part of the digest that lies in the first n words. */
  function DigestUpTo(a: Answer, n: nat): nat {
    (if n > 1 then a.instance as int else 0)
    + (if n > 2 then 0x100 * (a.ctype as int) + (a.channel as int) else 0)
    + (if n > 8 then a.code as int else 0) + (if n > 9 then a.reason as int else 0)
    + (if a.kind == Link then LinkUpTo(a, n) else 0)
  }

  function LinkUpTo(a: Answer, n: nat): nat {
    (if n > 10 then a.status / 0x1_0000 else 0) + (if n > 11 then a.status % 0x1_0000 else 0)
    + (if n > 12 then a.other / 0x1_0000 else 0) + (if n > 13 then a.other % 0x1_0000 else 0)
    + (if n > 14 then a.oem / 0x1_0000 else 0) + (if n > 15 then a.oem % 0x1_0000 else 0)
  }

  lemma {:induction false} AnswerSumIs(a: Answer, n: nat)
    ensures AnswerSum(a, n) == DigestUpTo(a, n)
  {
    if n > 0 { AnswerSumIs(a, n - 1); }
  }

  lemma DigestComplete(a: Answer)
    ensures DigestUpTo(a, Region(a.kind) / 2) == Digest(a)
  {}

  /** The word sum of a packet is its layout's constant plus the digest of its answer. */
  lemma {:induction false} PacketSum(board: Board, b: Buffer, a: Answer)
    requires Intact(board, a.kind, b) && Carries(b, a) && TypeFits(a)
    ensures Checksum.WordSum(b, REGION_START, Region(a.kind))
            == StaticSum(board, a.kind, Region(a.kind) / 2) + Digest(a)
  {
    RegionIsEven(a.kind);
    SumSplits(board, b, a, Region(a.kind) / 2);
    AnswerSumIs(a, Region(a.kind) / 2);
    DigestComplete(a);
  }

  /** Two packets of one layout have the same compensation exactly if their answers have the same digest. */
  lemma {:induction false} SameCompensation(board: Board, b: Buffer, c: Buffer, a: Answer, e: Answer)
    requires a.kind == e.kind && Intact(board, a.kind, b) && Intact(board, a.kind, c)
    requires Carries(b, a) && TypeFits(a) && Carries(c, e) && TypeFits(e)
    ensures OwnCompensation(a.kind, b) == OwnCompensation(a.kind, c) <==> Digest(a) == Digest(e)
  {
    PacketSum(board, b, a);
    PacketSum(board, c, e);
    RegionSumPositive(board, a.kind, b);
    RegionSumPositive(board, a.kind, c);
    DistinctCompensations(Checksum.WordSum(b, REGION_START, Region(a.kind)),
                          Checksum.WordSum(c, REGION_START, Region(a.kind)));
  }

  lemma DistinctCompensations(s: nat, t: nat)
    requires 0 < s < WRAP32 && 0 < t < WRAP32
    ensures Checksum.Compensation(s) == Checksum.Compensation(t) <==> s == t
  {}

  // ---- The digest in terms of the request ---------------------------------------------------

  /** The digest of the answer a frame will draw, from the frame, readiness and the PHY: instance, response type,
      channel and codes, and the link status if that is what is answered. */
  function RequestDigest(d: Device, f: seq<Byte>, hal: Hal): nat
    requires |f| >= 30
  {
    var (code, reason) := Verdict(d, f);
    HeaderDigest(f[17], if f[18] < 128 then f[18] + 128 else f[18], f[19], code, reason)
    + if f[18] == 0x0A && code == 0 then LinkByte(RefreshedLink(d.port.link, hal.phyRegister).up) else 0
  }

  lemma LinkAnswers(d: Device, f: seq<Byte>, hal: Hal)
    requires Readable(d, f) && AnswerTo(d, f, hal).Some? && d.channel < 31 && Safe(d.port)
    ensures var a := AnswerTo(d, f, hal).value;
            && (a.kind == Link <==> f[18] == 0x0A && a.code == 0)
            && (a.kind == Link ==> a.status == LinkByte(RefreshedLink(d.port.link, hal.phyRegister).up)
                                   && a.oem == 0 && a.other == 0)
  {
    match Decide(d, f) {
      case Execute(h) =>
        FrameAccepted(d, f);
        LinkByBits(d.port.link, hal.phyRegister);
      case _ =>
    }
  }

  lemma DigestOfRequest(d: Device, f: seq<Byte>, hal: Hal)
    requires Readable(d, f) && AnswerTo(d, f, hal).Some? && d.channel < 31 && Safe(d.port)
    ensures Digest(AnswerTo(d, f, hal).value) == RequestDigest(d, f, hal)
  {
    AnsweredIfForUs(d, f, hal);
    VerdictHolds(d, f, hal);
    AnswerShape(d, f, hal);
    LinkAnswers(d, f, hal);
    DigestParts(AnswerTo(d, f, hal).value);
  }

  lemma DigestParts(a: Answer)
    ensures var header := HeaderDigest(a.instance, a.ctype, a.channel, a.code, a.reason);
            && (a.kind != Link ==> Digest(a) == header)
            && (a.kind == Link && a.status < 0x1_0000 && a.oem == 0 && a.other == 0 ==> Digest(a) == header + a.status)
  {}

  // ---- Stale fields -------------------------------------------------------------------------

  /** The answer an input draws. Its instance, channel and type are the request's, its codes those of the priority
      table. */
  function AnswerOf(d: Device, x: Input): (a: Answer)
    requires SendsFrom(d, x).Some?
    ensures a.kind == SendsFrom(d, x).value
  {
    SendsAnswer(d, x);
    AnswerTo(d, x.event.buf, x.hal).value
  }

  lemma SentCarries(board: Board, d: Device, x: Input, k: Kind)
    requires Sound(board, d) && SendsFrom(d, x) == Some(k)
    ensures var a := AnswerOf(d, x);
            Intact(board, k, SentBuffer(d, x)) && Carries(SentBuffer(d, x), a) && TypeFits(a)
    ensures var sent := SentAt(d, [x], 0);
            sent == SentBuffer(d, x)[..TxLen(k)] && WireCompensation(k, sent) == OwnCompensation(k, SentBuffer(d, x))
  {
    SentIntact(board, d, x, k);
    SendsAnswer(d, x);
    AnswerShape(d, x.event.buf, x.hal);
    FilledFields(d.checksumOn, d.buffers.Get(k), AnswerOf(d, x));
    SentIs(d, x, k);
    PrefixVerifies(k, SentBuffer(d, x));
  }

  lemma SentInRun(start: Device, tr: seq<Input>, i: nat)
    requires i < |tr|
    ensures SentAt(start, tr, i) == SentAt(StateAt(start, tr, i), [tr[i]], 0)
  {
    assert StateAt(StateAt(start, tr, i), [tr[i]], 0) == StateAt(start, tr, i);
  }

  /** The digest of the answer that input i draws. */
  function DigestAt(start: Device, tr: seq<Input>, i: nat): nat
    requires i < |tr| && SendsFrom(StateAt(start, tr, i), tr[i]).Some?
  {
    RequestDigest(StateAt(start, tr, i), tr[i].event.buf, tr[i].hal)
  }

  lemma ReachableDigest(board: Board, tr: seq<Input>, x: Input)
    requires SendsFrom(Run(Boot(board), tr), x).Some?
    ensures var d := Run(Boot(board), tr); Digest(AnswerOf(d, x)) == RequestDigest(d, x.event.buf, x.hal)
  {
    AlwaysSound(board, tr);
    AlwaysSafe(board, tr);
    SendsAnswer(Run(Boot(board), tr), x);
    DigestOfRequest(Run(Boot(board), tr), x.event.buf, x.hal);
  }

  /** With checksums off, the field an answer carries is that of the answer sealed last in the same buffer: it is never
      the "not calculated" value 0, and the answer verifies exactly if its digest is the same. */
  lemma {:induction false} StaleField(board: Board, tr: seq<Input>, x: Input, k: Kind, i: nat)
    requires SendsFrom(Run(Boot(board), tr), x) == Some(k) && !Run(Boot(board), tr).checksumOn
    requires LatestSealed(k, Boot(board), tr, i)
    ensures var d := Run(Boot(board), tr); var sent := SentAt(d, [x], 0);
            && |sent| == FrameLength(k) && Word(sent, FieldAt(k)) != 0
            && (WireResidue(k, sent) == 0 <==> RequestDigest(d, x.event.buf, x.hal) == DigestAt(Boot(board), tr, i))
  {
    var start := Boot(board);
    var d, e := Run(start, tr), StateAt(start, tr, i);
    AnswersVerify(board, tr, x, k);
    BufferHistory(board, tr, k);
    OnceSealedNeverZero(board, tr, k);
    AlwaysSound(board, tr);
    AlwaysSound(board, tr[..i]);
    SentCarries(board, d, x, k);
    SentCarries(board, e, tr[i], k);
    SentInRun(start, tr, i);
    ReachableDigest(board, tr, x);
    ReachableDigest(board, tr[..i], tr[i]);
    SameCompensation(board, SentBuffer(d, x), SentBuffer(e, tr[i]), AnswerOf(d, x), AnswerOf(e, tr[i]));
  }

  lemma {:induction false} LatestExists(k: Kind, start: Device, tr: seq<Input>, n: nat) returns (i: nat)
    requires n < |tr| && SealedSendAt(k, start, tr, n)
    ensures LatestSealed(k, start, tr, i)
    decreases |tr| - n
  {
    if j: nat :| n < j < |tr| && SealedSendAt(k, start, tr, j) {
      i := LatestExists(k, start, tr, j);
    } else {
      i := n;
    }
  }

  /** The answer's digest is that of the answer sealed last in buffer k. */
  ghost predicate RepeatsLatest(k: Kind, start: Device, tr: seq<Input>, digest: nat) {
    exists i: nat :: LatestSealed(k, start, tr, i) && DigestAt(start, tr, i) == digest
  }

  /** A receiver accepts a packet that verifies or says that no checksum was calculated. */
  predicate Acceptable(k: Kind, sent: seq<Byte>) {
    |sent| == FrameLength(k) && (WireResidue(k, sent) == 0 || Word(sent, FieldAt(k)) == 0)
  }

  /** Exactly when an answer is acceptable, in every run: checksums are on, or its buffer was never sent with checksums
      on, or its instance, type, channel, codes and link words add up to the same as those of the answer sealed last. */
  lemma {:induction false} AcceptableExactly(board: Board, tr: seq<Input>, x: Input, k: Kind)
    requires SendsFrom(Run(Boot(board), tr), x) == Some(k)
    ensures var start := Boot(board); var d := Run(start, tr);
            Acceptable(k, SentAt(d, [x], 0)) <==>
            d.checksumOn || NeverSealed(k, start, tr)
            || RepeatsLatest(k, start, tr, RequestDigest(d, x.event.buf, x.hal))
  {
    var start := Boot(board);
    AnswersVerify(board, tr, x, k);
    if !Run(start, tr).checksumOn {
      if n :| 0 <= n < |tr| && SealedSendAt(k, start, tr, n) {
        var i := LatestExists(k, start, tr, n);
        StaleField(board, tr, x, k, i);
        forall j: nat | LatestSealed(k, start, tr, j) ensures j == i {}
      } else {
        BufferHistory(board, tr, k);
      }
    }
  }
}
