/** The receive mailbox under interruption: the interrupt handler may run between any two accesses of NCSI_PollRx
    (ncsi_hal_template.c). The handler itself is not interrupted by the main loop. */
module Mailbox {
  import opened Types

  /** What one interrupt reports: where the frame is and how long it is. */
  datatype Frame = Frame(ptr: U32, len: U32)

  /** Where the main loop is in NCSI_PollRx, with the values it has loaded. */
  datatype Pc =
    | Start                       // about to test gRxPending
    | Seen                        // found it set
    | Cleared                     // has cleared it
    | HavePtr(p: U32)             // has loaded gRxFrame
    | HaveBoth(p: U32, l: U32)    // has loaded gRxFrameLen too
    | Dispatched                  // ncsi_on_rx_frame has returned

  /** `hardwareOwns` is the descriptor's owner bit. `received` and `dispatched` are histories; `polls` counts completed
      calls of NCSI_PollRx. */
  datatype World = World(pending: bool, ptr: U32, len: U32, pc: Pc, hardwareOwns: bool,
                         received: seq<Frame>, dispatched: seq<Frame>, polls: nat)

  const INITIAL := World(false, 0, 0, Start, true, [], [], 0)

  datatype Tick = Main | Interrupt(frame: Frame)

  function MainStep(w: World): World {
    match w.pc
    case Start => if w.pending then w.(pc := Seen) else w.(polls := w.polls + 1)
    case Seen => w.(pending := false, pc := Cleared)
    case Cleared => w.(pc := HavePtr(w.ptr))
    case HavePtr(p) => w.(pc := HaveBoth(p, w.len))
    case HaveBoth(p, l) => w.(dispatched := w.dispatched + [Frame(p, l)], pc := Dispatched)
    case Dispatched => w.(pc := Start, hardwareOwns := true, polls := w.polls + 1)
  }

  function InterruptStep(w: World, f: Frame): World {
    w.(pending := true, ptr := f.ptr, len := f.len, hardwareOwns := false, received := w.received + [f])
  }

  function StepOf(w: World, t: Tick): World {
    match t
    case Main => MainStep(w)
    case Interrupt(f) => InterruptStep(w, f)
  }

  function RunFrom(w: World, ts: seq<Tick>): World {
    if |ts| == 0 then w else StepOf(RunFrom(w, ts[..|ts| - 1]), ts[|ts| - 1])
  }

  /** An interrupt meets a frame that the main loop has not copied, and changes what the loop will copy. With one fixed
      buffer it may leave the pointer as it is; the length matters until it has been loaded too. */
  predicate Overruns(w: World, f: Frame) {
    w.pending || (w.pc.Cleared? && f != Frame(w.ptr, w.len)) || (w.pc.HavePtr? && f.len != w.len)
  }

  ghost predicate NoOverrun(w: World, ts: seq<Tick>) {
    forall i :: 0 <= i < |ts| && ts[i].Interrupt? ==> !Overruns(RunFrom(w, ts[..i]), ts[i].frame)
  }

  /** The descriptor-ownership rule: the device interrupts only while it owns the descriptor, which it gives up with the
      interrupt and gets back at the end of NCSI_PollRx. The source leaves this rule to the board. */
  ghost predicate OwnershipRule(w: World, ts: seq<Tick>) {
    forall i :: 0 <= i < |ts| && ts[i].Interrupt? ==> RunFrom(w, ts[..i]).hardwareOwns
  }

  /** What the main loop will still dispatch if no further interrupt arrives. */
  function Committed(w: World): seq<Frame> {
    var waiting := if w.pending then [Frame(w.ptr, w.len)] else [];
    match w.pc
    case Start => waiting
    case Seen => [Frame(w.ptr, w.len)]
    case Cleared => [Frame(w.ptr, w.len)] + waiting
    case HavePtr(p) => [Frame(p, w.len)] + waiting
    case HaveBoth(p, l) => [Frame(p, l)] + waiting
    case Dispatched => waiting
  }

  /** What has been dispatched and what will be. */
  function Promised(w: World): seq<Frame> { w.dispatched + Committed(w) }

  /** Every received frame has been or will be dispatched, once, in order, with its own pointer and length. */
  predicate Balanced(w: World) { w.received == Promised(w) }

  /** The loop is past its test only if it found the flag set, and nothing but the loop clears it. */
  predicate Coherent(w: World) { w.pc.Seen? ==> w.pending }

  lemma AlwaysCoherent(ts: seq<Tick>)
    ensures Coherent(RunFrom(INITIAL, ts))
  {
    if |ts| > 0 { AlwaysCoherent(ts[..|ts| - 1]); }
  }

  /** The main loop alone never loses, repeats or reorders anything. */
  lemma MainKeepsPromise(w: World)
    ensures Promised(MainStep(w)) == Promised(w) && MainStep(w).received == w.received
  {}

  /** An interrupt keeps the balance if and only if it does not overrun the mailbox: otherwise a frame is lost,
      dispatched twice, or dispatched with another frame's length. */
  lemma {:induction false} OverrunExactly(w: World, f: Frame)
    requires Balanced(w) && Coherent(w)
    ensures Balanced(InterruptStep(w, f)) <==> !Overruns(w, f)
  {
    if Overruns(w, f) {
      OverrunDamages(w, f);
      DamagedIsUnbalanced(InterruptStep(w, f));
    } else {
      assert Committed(InterruptStep(w, f)) == Committed(w) + [f];
    }
  }

  /** How many of the promised frames no later interrupt can change. */
  function Fixed(w: World): nat {
    |w.dispatched| + if w.pc.HaveBoth? || (w.pending && (w.pc.Cleared? || w.pc.HavePtr?)) then 1 else 0
  }

  /** Beyond repair: a frame is missing, or a wrong one is among those that can no longer change. */
  ghost predicate Damaged(w: World) {
    |Promised(w)| < |w.received|
    || (|Promised(w)| == |w.received| && exists i :: 0 <= i < Fixed(w) && Promised(w)[i] != w.received[i])
  }

  lemma DamagedIsUnbalanced(w: World)
    requires Damaged(w)
    ensures !Balanced(w)
  {}

  lemma OverrunDamages(w: World, f: Frame)
    requires Balanced(w) && Coherent(w) && Overruns(w, f)
    ensures Damaged(InterruptStep(w, f))
  {
    var v := InterruptStep(w, f);
    if !w.pending {
      var n := |w.dispatched|;
      assert Promised(v)[n] == Committed(v)[0] && v.received[n] == Committed(w)[0];
    }
  }

  lemma DamageStays(w: World, t: Tick)
    requires Damaged(w) && Coherent(w)
    ensures Damaged(StepOf(w, t))
  {
    match t {
      case Main => MainKeepsPromise(w);
      case Interrupt(f) => DamageSurvivesInterrupt(w, f);
    }
  }

  lemma DamageSurvivesInterrupt(w: World, f: Frame)
    requires Damaged(w) && Coherent(w)
    ensures Damaged(InterruptStep(w, f))
  {
    var v := InterruptStep(w, f);
    assert |Promised(v)| == |Promised(w)| + if w.pending then 0 else 1;
    if !w.pending && |Promised(w)| == |w.received| {
      var i :| 0 <= i < Fixed(w) && Promised(w)[i] != w.received[i];
      assert Promised(v)[i] == Promised(w)[i] && v.received[i] == w.received[i];
    }
  }

  lemma OneTick(w: World, ts: seq<Tick>, t: Tick)
    ensures RunFrom(w, ts + [t]) == StepOf(RunFrom(w, ts), t)
  {
    assert (ts + [t])[..|ts|] == ts;
  }

  /** What the ownership rule is for: an interrupt between the loads of the pointer and of the length makes the loop
      dispatch the first frame's pointer with the second frame's length. */
  lemma {:induction false} TornFrame(a: Frame, b: Frame)
    ensures RunFrom(INITIAL, [Interrupt(a), Main, Main, Main, Interrupt(b), Main, Main]).dispatched
            == [Frame(a.ptr, b.len)]
  {
    OneTick(INITIAL, [], Interrupt(a));
    OneTick(INITIAL, [Interrupt(a)], Main);
    OneTick(INITIAL, [Interrupt(a), Main], Main);
    OneTick(INITIAL, [Interrupt(a), Main, Main], Main);
    OneTick(INITIAL, [Interrupt(a), Main, Main, Main], Interrupt(b));
    OneTick(INITIAL, [Interrupt(a), Main, Main, Main, Interrupt(b)], Main);
    OneTick(INITIAL, [Interrupt(a), Main, Main, Main, Interrupt(b), Main], Main);
    assert [] + [Interrupt(a)] == [Interrupt(a)];
    assert [Interrupt(a)] + [Main] == [Interrupt(a), Main];
    assert [Interrupt(a), Main] + [Main] == [Interrupt(a), Main, Main];
    assert [Interrupt(a), Main, Main] + [Main] == [Interrupt(a), Main, Main, Main];
    assert [Interrupt(a), Main, Main, Main] + [Interrupt(b)] == [Interrupt(a), Main, Main, Main, Interrupt(b)];
    assert [Interrupt(a), Main, Main, Main, Interrupt(b)] + [Main]
           == [Interrupt(a), Main, Main, Main, Interrupt(b), Main];
    assert [Interrupt(a), Main, Main, Main, Interrupt(b), Main] + [Main]
           == [Interrupt(a), Main, Main, Main, Interrupt(b), Main, Main];
  }

  lemma NoOverrunStep(ts: seq<Tick>)
    requires |ts| > 0
    ensures var before, t := ts[..|ts| - 1], ts[|ts| - 1];
            NoOverrun(INITIAL, ts) <==>
            NoOverrun(INITIAL, before) && (t.Interrupt? ==> !Overruns(RunFrom(INITIAL, before), t.frame))
  {
    var n := |ts| - 1;
    var before := ts[..n];
    forall i | 0 <= i < n ensures before[..i] == ts[..i] && before[i] == ts[i] {}
    assert ts[..n] == before;
    if NoOverrun(INITIAL, ts) {
      forall i | 0 <= i < n && before[i].Interrupt? ensures !Overruns(RunFrom(INITIAL, before[..i]), before[i].frame) {
        assert ts[i].Interrupt?;
      }
    }
  }

  lemma {:induction false} BalancedOrDamaged(ts: seq<Tick>)
    ensures if NoOverrun(INITIAL, ts) then Balanced(RunFrom(INITIAL, ts)) else Damaged(RunFrom(INITIAL, ts))
  {
    if |ts| > 0 {
      var before, t := ts[..|ts| - 1], ts[|ts| - 1];
      var w := RunFrom(INITIAL, before);
      BalancedOrDamaged(before);
      AlwaysCoherent(before);
      NoOverrunStep(ts);
      if !NoOverrun(INITIAL, before) {
        DamageStays(w, t);
      } else if t.Main? {
        MainKeepsPromise(w);
      } else if Overruns(w, t.frame) {
        OverrunDamages(w, t.frame);
      } else {
        OverrunExactly(w, t.frame);
      }
    }
  }

  /** Over every interleaving: each received frame has been or will be dispatched, once, in order and intact, if and
      only if no interrupt overran the mailbox. Damage is never made good. */
  lemma {:induction false} DeliveryExactly(ts: seq<Tick>)
    ensures Balanced(RunFrom(INITIAL, ts)) <==> NoOverrun(INITIAL, ts)
  {
    BalancedOrDamaged(ts);
    if !NoOverrun(INITIAL, ts) { DamagedIsUnbalanced(RunFrom(INITIAL, ts)); }
  }

  /** Over every interleaving without an overrun, the frames dispatched are the first ones received, each once, in order
      and intact; at most two are still under way, and none if the loop is idle. */
  lemma {:induction false} DeliveredInOrder(ts: seq<Tick>)
    requires NoOverrun(INITIAL, ts)
    ensures var w := RunFrom(INITIAL, ts);
            && w.dispatched <= w.received && |w.received| <= |w.dispatched| + 2
            && (w.pc.Start? && !w.pending ==> w.dispatched == w.received)
  {
    DeliveryExactly(ts);
  }

  /** Under the ownership rule the device owns the descriptor exactly when the loop is idle with nothing pending, so no
      interrupt overruns the mailbox and at most one frame is under way. */
  lemma {:induction false} OwnershipPreventsOverrun(ts: seq<Tick>)
    requires OwnershipRule(INITIAL, ts)
    ensures NoOverrun(INITIAL, ts)
    ensures var w := RunFrom(INITIAL, ts);
            && (w.hardwareOwns <==> w.pc.Start? && !w.pending) && (w.pending ==> w.pc.Start? || w.pc.Seen?)
            && w.dispatched <= w.received && |w.received| <= |w.dispatched| + 1
  {
    if |ts| > 0 {
      var before := ts[..|ts| - 1];
      RulePrefix(ts, |ts| - 1);
      OwnershipPreventsOverrun(before);
      AlwaysCoherent(before);
      NoOverrunStep(ts);
      AlwaysCoherent(ts);
      DeliveryExactly(ts);
      assert ts[..|ts| - 1] == before;
    }
  }

  /** Progress: from any point of such a run, once a further call of NCSI_PollRx completes, every frame received up to
      that point has been dispatched, whatever interrupts arrive meanwhile. */
  lemma {:induction false} NextPollDispatches(early: seq<Tick>, later: seq<Tick>)
    requires OwnershipRule(INITIAL, early + later)
    ensures var w, v := RunFrom(INITIAL, early), RunFrom(INITIAL, early + later);
            v.polls >= w.polls && w.dispatched <= v.dispatched
            && (v.polls > w.polls ==> w.received <= v.dispatched)
    decreases |later|
  {
    var all := early + later;
    if |later| == 0 {
      assert all == early;
    } else {
      var before := early + later[..|later| - 1];
      assert all[..|all| - 1] == before;
      RulePrefix(all, |all| - 1);
      NextPollDispatches(early, later[..|later| - 1]);
      ReceivedGrows(early, later[..|later| - 1]);
      PollsAndDispatches(before, all[|all| - 1]);
    }
  }

  /** A completed poll leaves nothing behind. */
  lemma PollsAndDispatches(before: seq<Tick>, t: Tick)
    requires OwnershipRule(INITIAL, before)
    ensures var u := RunFrom(INITIAL, before); var v := StepOf(u, t);
            && u.dispatched <= v.dispatched && v.polls >= u.polls
            && (v.polls > u.polls ==> v.dispatched == u.dispatched == u.received)
  {
    OwnershipPreventsOverrun(before);
    DeliveryExactly(before);
  }

  lemma RulePrefix(ts: seq<Tick>, n: nat)
    requires OwnershipRule(INITIAL, ts) && n <= |ts|
    ensures OwnershipRule(INITIAL, ts[..n])
  {
    forall i | 0 <= i < n && ts[..n][i].Interrupt? ensures RunFrom(INITIAL, ts[..n][..i]).hardwareOwns {
      assert ts[..n][..i] == ts[..i];
    }
  }

  lemma {:induction false} ReceivedGrows(early: seq<Tick>, later: seq<Tick>)
    ensures RunFrom(INITIAL, early).received <= RunFrom(INITIAL, early + later).received
    decreases |later|
  {
    if |later| == 0 {
      assert early + later == early;
    } else {
      assert (early + later)[..|early + later| - 1] == early + later[..|later| - 1];
      ReceivedGrows(early, later[..|later| - 1]);
    }
  }
}
