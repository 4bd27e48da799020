/** Responders sharing one multi-drop bus: every control frame reaches all of them. */
module Bus {
  import opened Types
  import opened Protocol
  import opened Manual
  import opened Steps
  import opened Compliance
  import opened Responses

  /** A control frame of the BMC, or something that happens to one responder only (a poll, a reload, a checksum toggle).
      Every responder receives the same bytes; what else its receive buffer holds, and what its hardware answers, is its
      own. */
  datatype BusEvent =
    | Broadcast(bytes: seq<Byte>, rest: nat -> seq<Byte>, hal: nat -> Hal)
    | Local(node: nat, input: Input)

  ghost predicate ValidBusEvent(e: BusEvent) {
    match e
    case Broadcast(bytes, rest, _) =>
      30 <= |bytes| < 0x1_0000_0000 && bytes[12] == 0x88 && bytes[13] == 0xF8
      && forall i: nat :: AlwaysReadable(bytes + rest(i))
    case Local(_, input) => !input.event.Rx? && !input.event.Init?
  }

  const IDLE: Input := RawInput(Poll, Hal(false, 0, 0, false, false, false))

  type BusInput = e: BusEvent | ValidBusEvent(e)
    witness Local(0, IDLE)

  /** What an event means to responder i; None if it does not reach it. */
  function Seen(e: BusInput, i: nat): Option<Input> {
    match e
    case Broadcast(bytes, rest, hal) => Some(RawInput(Rx(bytes + rest(i), |bytes|), hal(i)))
    case Local(node, input) => if node == i then Some(input) else None
  }

  function NodeStep(d: Device, e: BusInput, i: nat): Outcome {
    match Seen(e, i)
    case Some(x) => Step(d, x)
    case None => Outcome(d, [])
  }

  /** All responders after a bus run. */
  function BusRun(nodes: seq<Device>, run: seq<BusInput>): (r: seq<Device>)
    ensures |r| == |nodes|
  {
    if |run| == 0 then nodes
    else
      var before := BusRun(nodes, run[..|run| - 1]);
      seq(|nodes|, i requires 0 <= i < |nodes| => NodeStep(before[i], run[|run| - 1], i).dev)
  }

  /** The hardware calls responder i has made during a bus run. */
  function BusCalls(nodes: seq<Device>, run: seq<BusInput>, i: nat): seq<HalCall>
    requires i < |nodes|
  {
    if |run| == 0 then []
    else BusCalls(nodes, run[..|run| - 1], i)
         + NodeStep(BusRun(nodes, run[..|run| - 1])[i], run[|run| - 1], i).calls
  }

  /** The frames addressed to responder i and its own local inputs. */
  function Addressees(d: Device, run: seq<BusInput>, i: nat): seq<Input> {
    if |run| == 0 then []
    else
      var before, e := Addressees(d, run[..|run| - 1], i), run[|run| - 1];
      match Seen(e, i)
      case None => before
      case Some(x) => if e.Broadcast? && !ForUs(d, e.bytes) then before else before + [x]
  }

  lemma {:induction false} IdentityKept(d: Device, run: seq<BusInput>, i: nat)
    ensures Run(d, Addressees(d, run, i)).package == d.package && Run(d, Addressees(d, run, i)).channel == d.channel
  {
    if |run| > 0 {
      IdentityKept(d, run[..|run| - 1], i);
      var before, e := Addressees(d, run[..|run| - 1], i), run[|run| - 1];
      match Seen(e, i) {
        case Some(x) =>
          RunStep(d, before, x);
          StepSettings(Run(d, before), x);
        case None =>
      }
    }
  }

  /** Projection: however many responders share the bus and whatever the others do, each one ends in the state, and has
      made the hardware calls, of the run that consists of its own frames and local inputs alone. */
  lemma {:induction false} Projection(nodes: seq<Device>, run: seq<BusInput>, i: nat)
    requires i < |nodes|
    ensures BusRun(nodes, run)[i] == Run(nodes[i], Addressees(nodes[i], run, i))
    ensures BusCalls(nodes, run, i) == Calls(nodes[i], Addressees(nodes[i], run, i))
  {
    if |run| > 0 {
      var before, e := run[..|run| - 1], run[|run| - 1];
      Projection(nodes, before, i);
      IdentityKept(nodes[i], before, i);
      var d := BusRun(nodes, before)[i];
      match Seen(e, i) {
        case Some(x) =>
          if e.Broadcast? && !ForUs(nodes[i], e.bytes) {
            NotForUs(d, x);
          } else {
            RunStep(nodes[i], Addressees(nodes[i], before, i), x);
          }
        case None =>
      }
    }
  }

  lemma NotForUs(d: Device, x: Input)
    requires ControlFrame(x.event) && !ForUs(d, x.event.buf)
    ensures Step(d, x) == Outcome(d, [])
  {
    ControlByBytes(x.event);
    HeaderByBytes(d, x.event.buf);
  }

  // ---- Who answers --------------------------------------------------------------------------

  predicate Distinct(nodes: seq<Device>) {
    forall i, j :: 0 <= i < j < |nodes| ==>
      nodes[i].package != nodes[j].package || nodes[i].channel != nodes[j].channel
  }

  predicate Owns(d: Device, f: seq<Byte>)
    requires |f| >= 30
  {
    d.package == f[19] / 32 && d.channel == f[19] % 32
  }

  /** How many answers responder i puts on the bus for this event. */
  function AnswerCount(d: Device, e: BusInput, i: nat): nat { |Transmissions(NodeStep(d, e, i).calls)| }

  lemma AnswersIffForUs(d: Device, e: BusInput, i: nat)
    requires e.Broadcast?
    ensures AnswerCount(d, e, i) == if ForUs(d, e.bytes) then 1 else 0
  {
    AnsweredIfForUs(d, e.bytes + e.rest(i), e.hal(i));
    FrameSends(d, e.bytes + e.rest(i), e.hal(i));
  }

  lemma IdentitiesAfter(nodes: seq<Device>, run: seq<BusInput>, i: nat)
    requires i < |nodes|
    ensures BusRun(nodes, run)[i].package == nodes[i].package && BusRun(nodes, run)[i].channel == nodes[i].channel
  {
    Projection(nodes, run, i);
    IdentityKept(nodes[i], run, i);
  }

  lemma AnswerOf(nodes: seq<Device>, run: seq<BusInput>, e: BusInput, i: nat)
    requires i < |nodes| && e.Broadcast?
    ensures AnswerCount(BusRun(nodes, run)[i], e, i) == if ForUs(nodes[i], e.bytes) then 1 else 0
  {
    IdentitiesAfter(nodes, run, i);
    AnswersIffForUs(BusRun(nodes, run)[i], e, i);
  }

  /** After any bus run: a frame for one channel is answered, once, by the responder that owns the channel and by nobody
      else, so at most one answer appears; a frame for the package indicator 0x1F is answered once by every responder of
      that package. */
  lemma {:induction false} WhoAnswers(nodes: seq<Device>, run: seq<BusInput>, e: BusInput)
    requires Distinct(nodes) && e.Broadcast?
    ensures var now := BusRun(nodes, run); var f := e.bytes;
            if f[19] % 32 != 31 then
              && (forall i :: 0 <= i < |now| ==> AnswerCount(now[i], e, i) == if Owns(nodes[i], f) then 1 else 0)
              && (forall i, j :: 0 <= i < j < |now| ==>
                    AnswerCount(now[i], e, i) == 0 || AnswerCount(now[j], e, j) == 0)
            else
              forall i :: 0 <= i < |now| ==>
                AnswerCount(now[i], e, i) == if nodes[i].package == f[19] / 32 then 1 else 0
  {
    var now, f := BusRun(nodes, run), e.bytes;
    forall i | 0 <= i < |now|
      ensures AnswerCount(now[i], e, i) == if ForUs(nodes[i], f) then 1 else 0
    {
      AnswerOf(nodes, run, e, i);
    }
  }

  /** Number of answers on the bus. */
  function Answers(now: seq<Device>, e: BusInput, n: nat): nat
    requires n <= |now|
  {
    if n == 0 then 0 else Answers(now, e, n - 1) + AnswerCount(now[n - 1], e, n - 1)
  }

  /** How many of the first n responders a frame addresses. */
  function AddressedNodes(nodes: seq<Device>, f: seq<Byte>, n: nat): nat
    requires n <= |nodes| && |f| >= 30
  {
    if n == 0 then 0 else AddressedNodes(nodes, f, n - 1) + (if ForUs(nodes[n - 1], f) then 1 else 0)
  }

  lemma {:induction false} CountsAgree(now: seq<Device>, nodes: seq<Device>, e: BusInput, n: nat)
    requires e.Broadcast? && n <= |nodes| == |now|
    requires forall i :: 0 <= i < n ==> AnswerCount(now[i], e, i) == if ForUs(nodes[i], e.bytes) then 1 else 0
    ensures Answers(now, e, n) == AddressedNodes(nodes, e.bytes, n)
  {
    if n > 0 { CountsAgree(now, nodes, e, n - 1); }
  }

  lemma AnswersAreAddressees(nodes: seq<Device>, run: seq<BusInput>, e: BusInput)
    requires e.Broadcast?
    ensures Answers(BusRun(nodes, run), e, |nodes|) == AddressedNodes(nodes, e.bytes, |nodes|)
  {
    var now := BusRun(nodes, run);
    forall i | 0 <= i < |nodes| ensures AnswerCount(now[i], e, i) == if ForUs(nodes[i], e.bytes) then 1 else 0 {
      AnswerOf(nodes, run, e, i);
    }
    CountsAgree(now, nodes, e, |nodes|);
  }

  lemma {:induction false} AtMostOneOwner(nodes: seq<Device>, f: seq<Byte>, n: nat)
    requires Distinct(nodes) && n <= |nodes| && |f| >= 30 && f[19] % 32 != 31
    ensures AddressedNodes(nodes, f, n) == if exists i :: 0 <= i < n && Owns(nodes[i], f) then 1 else 0
  {
    if n > 0 {
      AtMostOneOwner(nodes, f, n - 1);
      assert ForUs(nodes[n - 1], f) == Owns(nodes[n - 1], f);
    }
  }

  /** A frame for one channel draws one answer from the whole bus if its owner is present and none otherwise. */
  lemma {:induction false} OneAnswerIffOwnerPresent(nodes: seq<Device>, run: seq<BusInput>, e: BusInput)
    requires Distinct(nodes) && e.Broadcast? && e.bytes[19] % 32 != 31
    ensures Answers(BusRun(nodes, run), e, |nodes|) ==
            if exists i :: 0 <= i < |nodes| && Owns(nodes[i], e.bytes) then 1 else 0
  {
    AnswersAreAddressees(nodes, run, e);
    AtMostOneOwner(nodes, e.bytes, |nodes|);
  }

  /** The responders of a package. */
  function Members(nodes: seq<Device>, package: nat): set<nat> {
    set i: nat | i < |nodes| && nodes[i].package == package
  }

  lemma {:induction false} AddressedMembers(nodes: seq<Device>, f: seq<Byte>, n: nat)
    requires n <= |nodes| && |f| >= 30 && f[19] % 32 == 31
    ensures AddressedNodes(nodes, f, n) == |Members(nodes[..n], f[19] / 32)|
  {
    var package := f[19] / 32;
    if n > 0 {
      AddressedMembers(nodes, f, n - 1);
      var before, now := Members(nodes[..n - 1], package), Members(nodes[..n], package);
      assert n - 1 !in before;
      assert now == if nodes[n - 1].package == package then before + {n - 1} else before;
    } else {
      assert Members(nodes[..0], package) == {};
    }
  }

  /** A frame for the package indicator draws as many answers as the package has responders on the bus: "at most one
      answer" fails as soon as there are two. */
  lemma {:induction false} PackageAnswers(nodes: seq<Device>, run: seq<BusInput>, e: BusInput)
    requires e.Broadcast? && e.bytes[19] % 32 == 31
    ensures Answers(BusRun(nodes, run), e, |nodes|) == |Members(nodes, e.bytes[19] / 32)|
  {
    AnswersAreAddressees(nodes, run, e);
    AddressedMembers(nodes, e.bytes, |nodes|);
    assert nodes[..|nodes|] == nodes;
  }
}
