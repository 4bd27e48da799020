/** From interrupt to responder: the receive mailbox, the receive buffers in memory and the protocol engine together,
    under every interleaving that respects the descriptor-ownership rule. */
module Delivery {
  import opened Types
  import opened Protocol
  import opened Mailbox

  /** One step of the main loop, or a reception: the DMA engine has written a buffer and the interrupt handler runs. */
  datatype RawHappening =
    | Loop(hal: Hal)
    | Reception(ptr: U32, buf: seq<Byte>, len: U32)

  predicate ValidHappening(h: RawHappening) { h.Reception? ==> ValidEvent(Rx(h.buf, h.len)) }

  type Happening = h: RawHappening | ValidHappening(h) witness Loop(Hal(false, 0, 0, false, false, false))

  /** `arrived` is what the network side delivered, `trace` what the protocol engine was given. */
  datatype System = System(world: World, memory: map<U32, seq<Byte>>, device: Device,
                           trace: seq<Input>, arrived: seq<Event>)

  function Start(device: Device): System { System(INITIAL, map[], device, [], []) }

  function AsTick(h: Happening): Tick {
    match h
    case Loop(_) => Main
    case Reception(ptr, _, len) => Interrupt(Frame(ptr, len))
  }

  function Ticks(hs: seq<Happening>): (ts: seq<Tick>)
    ensures |ts| == |hs|
  {
    if |hs| == 0 then [] else Ticks(hs[..|hs| - 1]) + [AsTick(hs[|hs| - 1])]
  }

  /** ncsi_on_rx_frame on whatever the memory at the pointer holds by now. */
  function Hand(s: System, p: U32, l: U32, hal: Hal): System {
    if p in s.memory && ValidEvent(Rx(s.memory[p], l)) then
      var x: Input := RawInput(Rx(s.memory[p], l), hal);
      s.(device := Step(s.device, x).dev, trace := s.trace + [x])
    else s
  }

  function Next(s: System, h: Happening): System {
    var t := s.(world := StepOf(s.world, AsTick(h)));
    match h
    case Reception(ptr, buf, len) => t.(memory := s.memory[ptr := buf], arrived := s.arrived + [Rx(buf, len)])
    case Loop(hal) => if s.world.pc.HaveBoth? then Hand(t, s.world.pc.p, s.world.pc.l, hal) else t
  }

  function RunSystem(device: Device, hs: seq<Happening>): System {
    if |hs| == 0 then Start(device) else Next(RunSystem(device, hs[..|hs| - 1]), hs[|hs| - 1])
  }

  /** The frame that was received last and not yet handed over still lies where the mailbox says. */
  ghost predicate InPlace(s: System) {
    |s.trace| < |s.arrived| <= |s.world.received| ==>
      var f, e := s.world.received[|s.arrived| - 1], s.arrived[|s.arrived| - 1];
      f.ptr in s.memory && e == Rx(s.memory[f.ptr], f.len) && ValidEvent(e)
  }

  ghost predicate Faithful(device: Device, s: System) {
    && |s.trace| == |s.world.dispatched| && |s.arrived| == |s.world.received|
    && s.device == Run(device, s.trace)
    && |s.trace| <= |s.arrived| <= |s.trace| + 1
    && (forall i :: 0 <= i < |s.trace| ==> s.trace[i].event == s.arrived[i])
  }

  lemma LastTick(hs: seq<Happening>)
    requires |hs| > 0
    ensures Ticks(hs)[..|Ticks(hs)| - 1] == Ticks(hs[..|hs| - 1]) && Ticks(hs)[|hs| - 1] == AsTick(hs[|hs| - 1])
  {}

  lemma {:induction false} SameWorld(device: Device, hs: seq<Happening>)
    ensures RunSystem(device, hs).world == RunFrom(INITIAL, Ticks(hs))
  {
    if |hs| > 0 {
      LastTick(hs);
      SameWorld(device, hs[..|hs| - 1]);
    }
  }

  /** What the ownership rule says about a moment of a run. */
  ghost predicate Orderly(w: World) {
    && Balanced(w) && w.dispatched <= w.received && |w.received| <= |w.dispatched| + 1
    && (w.hardwareOwns <==> w.pc.Start? && !w.pending) && (w.pending ==> w.pc.Start? || w.pc.Seen?)
  }

  lemma AlwaysOrderly(ts: seq<Tick>)
    requires OwnershipRule(INITIAL, ts)
    ensures Orderly(RunFrom(INITIAL, ts))
  {
    OwnershipPreventsOverrun(ts);
    DeliveryExactly(ts);
  }

  lemma HandOver(device: Device, s: System, hal: Hal)
    requires Faithful(device, s) && InPlace(s) && Orderly(s.world) && s.world.pc.HaveBoth?
    ensures Faithful(device, Next(s, Loop(hal))) && InPlace(Next(s, Loop(hal)))
  {
    var w, n := s.world, |s.trace|;
    assert w.received[n] == Frame(w.pc.p, w.pc.l);
    var x: Input := RawInput(Rx(s.memory[w.pc.p], w.pc.l), hal);
    var t := Next(s, Loop(hal));
    assert t.trace == s.trace + [x] && t.device == Step(s.device, x).dev;
    assert t.world.dispatched == w.dispatched + [Frame(w.pc.p, w.pc.l)];
    RunStep(device, s.trace, x);
  }

  lemma Receive(device: Device, s: System, h: Happening)
    requires Faithful(device, s) && Orderly(s.world) && h.Reception? && s.world.hardwareOwns
    ensures Faithful(device, Next(s, h)) && InPlace(Next(s, h))
  {
    assert s.world.received == s.world.dispatched;
  }

  lemma OtherStep(device: Device, s: System, hal: Hal)
    requires Faithful(device, s) && InPlace(s) && !s.world.pc.HaveBoth?
    ensures Faithful(device, Next(s, Loop(hal))) && InPlace(Next(s, Loop(hal)))
  {
    var w, v := s.world, Next(s, Loop(hal)).world;
    assert v.received == w.received && v.dispatched == w.dispatched;
  }

  lemma FaithfulStep(device: Device, s: System, h: Happening)
    requires Faithful(device, s) && InPlace(s) && Orderly(s.world) && (h.Reception? ==> s.world.hardwareOwns)
    ensures Faithful(device, Next(s, h)) && InPlace(Next(s, h))
  {
    if h.Reception? {
      Receive(device, s, h);
    } else if s.world.pc.HaveBoth? {
      HandOver(device, s, h.hal);
    } else {
      OtherStep(device, s, h.hal);
    }
  }

  lemma {:induction false} AlwaysFaithful(device: Device, hs: seq<Happening>)
    requires OwnershipRule(INITIAL, Ticks(hs))
    ensures Faithful(device, RunSystem(device, hs)) && InPlace(RunSystem(device, hs))
  {
    if |hs| > 0 {
      var before, h := hs[..|hs| - 1], hs[|hs| - 1];
      var s := RunSystem(device, before);
      LastTick(hs);
      assert Ticks(hs)[..|hs| - 1] == Ticks(before);
      RulePrefix(Ticks(hs), |hs| - 1);
      assert h.Reception? ==> Ticks(hs)[|hs| - 1].Interrupt?;
      AlwaysFaithful(device, before);
      SameWorld(device, before);
      AlwaysOrderly(Ticks(before));
      FaithfulStep(device, s, h);
    }
  }

  /** End to end: under the ownership rule, whatever the interleaving, the responder has been given the received frames,
      each once, in order, with the bytes they arrived with; its state is the run over them. At most the latest frame is
      still missing, and none if the loop is idle. */
  lemma {:induction false} FramesReachResponder(device: Device, hs: seq<Happening>)
    requires OwnershipRule(INITIAL, Ticks(hs))
    ensures var s := RunSystem(device, hs);
            && s.device == Run(device, s.trace)
            && |s.trace| <= |s.arrived| <= |s.trace| + 1
            && (forall i :: 0 <= i < |s.trace| ==> s.trace[i].event == s.arrived[i])
            && (s.world.pc.Start? && !s.world.pending ==> |s.trace| == |s.arrived|)
  {
    AlwaysFaithful(device, hs);
    SameWorld(device, hs);
    AlwaysOrderly(Ticks(hs));
  }

  lemma {:induction false} TicksAppend(early: seq<Happening>, later: seq<Happening>)
    ensures Ticks(early + later) == Ticks(early) + Ticks(later)
    decreases |later|
  {
    var all := early + later;
    if |later| == 0 {
      assert all == early;
    } else {
      assert all[..|all| - 1] == early + later[..|later| - 1];
      TicksAppend(early, later[..|later| - 1]);
    }
  }

  /** Once a further poll completes, every frame received up to now has been handled. */
  lemma {:induction false} NextPollHandles(device: Device, early: seq<Happening>, later: seq<Happening>)
    requires OwnershipRule(INITIAL, Ticks(early + later))
    ensures var s, t := RunSystem(device, early), RunSystem(device, early + later);
            t.world.polls > s.world.polls ==> |s.arrived| <= |t.trace|
  {
    TicksAppend(early, later);
    assert Ticks(early + later)[..|early|] == Ticks(early);
    RulePrefix(Ticks(early + later), |early|);
    AlwaysFaithful(device, early);
    AlwaysFaithful(device, early + later);
    SameWorld(device, early);
    SameWorld(device, early + later);
    NextPollDispatches(Ticks(early), Ticks(later));
  }
}
