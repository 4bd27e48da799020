/** Concrete runs in which what a reader of the documentation might expect does not happen. The exact conditions are
    PayloadReads.ReceivedBytesExactly, ChecksumToggle.AcceptableExactly and Passthrough.FilterTablesAgree. */
module Witnesses {
  import opened Types
  import opened Wire
  import opened Protocol
  import opened Manual
  import opened Steps
  import opened Compliance
  import opened Runs
  import opened Responses
  import opened ChecksumToggle
  import opened Passthrough

  /** The header of a command for package 0, channel 0, the identity of a responder at power-up. */
  function Header(instance: Byte, command: Byte, length: Byte): (h: seq<Byte>)
    ensures |h| == HEADER_SIZE
  {
    [0xFF, 0xFF, 0xFF, 0xFF, 0xFF, 0xFF, 0xFF, 0xFF, 0xFF, 0xFF, 0xFF, 0xFF, 0x88, 0xF8,
     0, 1, 0, instance, command, 0, 0, length, 0, 0, 0, 0, 0, 0, 0, 0]
  }

  const HAL := Hal(true, 0, 0, false, false, false)

  lemma HeaderFields(instance: Byte, command: Byte, length: Byte, rest: seq<Byte>)
    ensures var f := Header(instance, command, length) + rest;
            && Rd16(f, 12) == ETHER_TYPE_NCSI && InstanceOf(f) == instance && CommandOf(f) == command
            && ChannelIdOf(f) == 0 && DeclaredLength(f) == length
  {}

  /** A command of which len bytes arrive in a buffer that holds the given bytes after the header. */
  function Command(instance: Byte, command: Byte, length: Byte, rest: seq<Byte>, len: nat): Input
    requires HEADER_SIZE <= len <= HEADER_SIZE + |rest| && 8 <= |rest| < 0x1000
  {
    HeaderFields(instance, command, length, rest);
    RawInput(Rx(Header(instance, command, length) + rest, len), HAL)
  }

  const PADDING: seq<Byte> := [0, 0, 0, 0, 0, 0, 0, 0]

  const CLEAR_INITIAL_STATE: Input := Command(1, 0x00, 0, PADDING, HEADER_SIZE)
  const RESET_CHANNEL: Input := Command(3, 0x05, 4, PADDING, HEADER_SIZE + 4)

  /** Set MAC Address for slot 1, enabled, unicast, of which len bytes arrive. */
  function SetMac(m: Mac, len: nat): Input
    requires HEADER_SIZE <= len <= HEADER_SIZE + 8
  {
    Command(2, 0x0E, 8, m + [1, 0x80], len)
  }

  /** A device with the power-up identity. */
  predicate AtOrigin(d: Device) { d.package == 0 && d.channel == 0 }

  lemma CommandAccepted(d: Device, instance: Byte, command: Byte, length: Byte, rest: seq<Byte>, len: nat)
    requires HEADER_SIZE <= len <= HEADER_SIZE + |rest| && 8 <= |rest| < 0x1000 && AtOrigin(d)
    requires KnownCommand(command) && RequiredLength(command) == length && (command == 0x00 || d.port.ready)
    ensures Accepted(d, Command(instance, command, length, rest, len)) == Some(command)
  {}

  lemma ClearStep(d: Device, x: Input)
    requires AtOrigin(d) && Accepted(d, x) == Some(0x00)
    ensures var e := Step(d, x).dev; AtOrigin(e) && e.port.ready
  {
    StepRecord(d, x);
    StepSettings(d, x);
    assert Config(Step(d, x).dev.port).ready;
  }

  lemma MacStep(d: Device, x: Input, m: Mac)
    requires AtOrigin(d) && d.port.ready && Accepted(d, x) == Some(0x0E) && SetsFirstSlot(x, m)
    ensures var e := Step(d, x).dev; AtOrigin(e) && e.port.ready && e.port.filters[0] == MacFilter(true, 0, m)
  {
    StepSettings(d, x);
    SlotStep(d, x, 0);
    FactStep(Ready, d, x);
  }

  lemma ResetStep(d: Device, x: Input, calls: seq<HalCall>)
    requires Accepted(d, x) == Some(0x05)
    ensures !Step(d, x).dev.port.filters[0].enabled
    ensures HalSlot(calls + Step(d, x).calls, 0) == HalSlot(calls, 0)
  {
    SlotStep(d, x, 0);
    StepPrograms(d, x, 0);
    HalSlotAppend(calls, Step(d, x).calls, 0);
  }

  lemma RunOne(d: Device, x: Input)
    ensures Run(d, [x]) == Step(d, x).dev
  {
    RunStep(d, [], x);
    assert [] + [x] == [x];
  }

  lemma RunTwo(d: Device, x: Input, y: Input)
    ensures Run(d, [x, y]) == Step(Run(d, [x]), y).dev
  {
    RunStep(d, [x], y);
    assert [x] + [y] == [x, y];
  }

  /** Every responder with the power-up identity accepts the command once it is ready, Clear Initial State before. */
  ghost predicate AlwaysAccepted(x: Input, c: Byte) {
    forall d: Device | AtOrigin(d) && (c == 0x00 || d.port.ready) :: Accepted(d, x) == Some(c)
  }

  lemma CommandAlwaysAccepted(instance: Byte, command: Byte, length: Byte, rest: seq<Byte>, len: nat)
    requires HEADER_SIZE <= len <= HEADER_SIZE + |rest| && 8 <= |rest| < 0x1000
    requires KnownCommand(command) && RequiredLength(command) == length
    ensures AlwaysAccepted(Command(instance, command, length, rest, len), command)
  {
    forall d: Device | AtOrigin(d) && (command == 0x00 || d.port.ready)
      ensures Accepted(d, Command(instance, command, length, rest, len)) == Some(command)
    {
      CommandAccepted(d, instance, command, length, rest, len);
    }
  }

  predicate SetsFirstSlot(x: Input, m: Mac) {
    x.event.Rx? && |x.event.buf| >= 38
    && var f := x.event.buf; f[30..36] == m && f[36] == 1 && f[37] == 0x80
  }

  lemma SlotAfter(board: Board, x: Input, y: Input, m: Mac)
    requires AlwaysAccepted(x, 0x00) && AlwaysAccepted(y, 0x0E) && SetsFirstSlot(y, m)
    ensures var d := Run(Boot(board), [x, y]);
            AtOrigin(d) && d.port.ready && d.port.filters[0] == MacFilter(true, 0, m)
  {
    ClearStep(Boot(board), x);
    RunOne(Boot(board), x);
    MacStep(Run(Boot(board), [x]), y, m);
    RunTwo(Boot(board), x, y);
  }

  lemma SlotAfterReset(board: Board, x: Input, y: Input, z: Input, m: Mac)
    requires AlwaysAccepted(x, 0x00) && AlwaysAccepted(y, 0x0E) && SetsFirstSlot(y, m)
    requires AlwaysAccepted(z, 0x05)
    ensures !Run(Boot(board), [x, y, z]).port.filters[0].enabled
    ensures HalSlot(Calls(Boot(board), [x, y, z]), 0) == Some(HalFilter(m, true))
  {
    SlotAfter(board, x, y, m);
    TrackedImpliesProgrammed(board, [x, y], 0);
    ResetStep(Run(Boot(board), [x, y]), z, Calls(Boot(board), [x, y]));
    RunThree(Boot(board), x, y, z);
  }

  lemma SetMacFields(m: Mac, len: nat)
    requires HEADER_SIZE <= len <= HEADER_SIZE + 8
    ensures SetsFirstSlot(SetMac(m, len), m)
  {
    var f := SetMac(m, len).event.buf;
    assert f[30..36] == m;
  }

  /** "The responder acts only on the bytes it received" fails: only the 30 header bytes of a Set MAC Address command
      arrive, the same ones for every m, and whatever address m the receive buffer happens to hold behind them becomes
      an enabled source filter. */
  lemma {:induction false} StaleBytesBecomeFilter(board: Board, m: Mac)
    ensures var x := SetMac(m, HEADER_SIZE);
            && x.event.len == HEADER_SIZE && x.event.buf[..HEADER_SIZE] == Header(2, 0x0E, 8)
            && KnownSource(Run(Boot(board), [CLEAR_INITIAL_STATE, x]).port, m)
  {
    CommandAlwaysAccepted(1, 0x00, 0, PADDING, HEADER_SIZE);
    CommandAlwaysAccepted(2, 0x0E, 8, m + [1, 0x80], HEADER_SIZE);
    SetMacFields(m, HEADER_SIZE);
    SlotAfter(board, CLEAR_INITIAL_STATE, SetMac(m, HEADER_SIZE), m);
  }

  /** Reset Channel leaves the hardware's filter on: after Clear Initial State, a complete Set MAC Address and Reset
      Channel the tracked slot is off while the hardware slot still passes m. */
  lemma {:induction false} ResetLeavesHardwareFilter(board: Board, m: Mac)
    ensures var tr := [CLEAR_INITIAL_STATE, SetMac(m, HEADER_SIZE + 8), RESET_CHANNEL];
            && !Run(Boot(board), tr).port.filters[0].enabled
            && HalSlot(Calls(Boot(board), tr), 0) == Some(HalFilter(m, true))
  {
    CommandAlwaysAccepted(1, 0x00, 0, PADDING, HEADER_SIZE);
    CommandAlwaysAccepted(2, 0x0E, 8, m + [1, 0x80], HEADER_SIZE + 8);
    CommandAlwaysAccepted(3, 0x05, 4, PADDING, HEADER_SIZE + 4);
    SetMacFields(m, HEADER_SIZE + 8);
    SlotAfterReset(board, CLEAR_INITIAL_STATE, SetMac(m, HEADER_SIZE + 8), RESET_CHANNEL, m);
  }

  lemma RunThree(d: Device, x: Input, y: Input, z: Input)
    ensures Run(d, [x, y, z]) == Step(Run(d, [x, y]), z).dev
    ensures Calls(d, [x, y, z]) == Calls(d, [x, y]) + Step(Run(d, [x, y]), z).calls
  {
    RunStep(d, [x, y], z);
    assert [x, y] + [z] == [x, y, z];
  }

  // ---- A stale checksum ---------------------------------------------------------------------

  /** An unknown command, which is answered from the plain buffer in every state. */
  function Unknown50(instance: Byte): Input { Command(instance, 0x50, 0, PADDING, HEADER_SIZE) }

  function Toggle(on: bool): Input { RawInput(SetChecksum(on), HAL) }

  lemma UnknownAnswered(d: Device, instance: Byte)
    requires AtOrigin(d)
    ensures var x := Unknown50(instance);
            && SendsFrom(d, x) == Some(Plain)
            && RequestDigest(d, x.event.buf, x.hal) == HeaderDigest(instance, 0xD0, 0, 3, 0x7FFF)
  {}

  /** Checksums on, one command, checksums off. */
  function OnceSealed(instance: Byte): seq<Input> { [Toggle(true), Unknown50(instance), Toggle(false)] }

  lemma OnceSealedStates(board: Board, a: Byte)
    ensures var start, tr := Boot(board), OnceSealed(a);
            && AtOrigin(StateAt(start, tr, 0)) && AtOrigin(StateAt(start, tr, 1)) && AtOrigin(StateAt(start, tr, 2))
            && StateAt(start, tr, 1).checksumOn
            && AtOrigin(Run(start, tr)) && !Run(start, tr).checksumOn
  {
    var start, tr := Boot(board), OnceSealed(a);
    assert tr[..0] == [] && tr[..1] == tr[..0] + [tr[0]] && tr[..2] == tr[..1] + [tr[1]] && tr == tr[..2] + [tr[2]];
    RunStep(start, tr[..0], tr[0]);
    RunStep(start, tr[..1], tr[1]);
    RunStep(start, tr[..2], tr[2]);
    StepSettings(Run(start, tr[..0]), tr[0]);
    StepSettings(Run(start, tr[..1]), tr[1]);
    StepSettings(Run(start, tr[..2]), tr[2]);
  }

  lemma SealedOnce(board: Board, a: Byte)
    ensures LatestSealed(Plain, Boot(board), OnceSealed(a), 1)
  {
    var start, tr := Boot(board), OnceSealed(a);
    OnceSealedStates(board, a);
    UnknownAnswered(StateAt(start, tr, 1), a);
    assert SealedSendAt(Plain, start, tr, 1);
    assert !SealedSendAt(Plain, start, tr, 2);
  }

  /** Switching checksums off does not clear the field: after one command answered with checksums on, the answer to the
      same command without checksums carries a field that is not 0 and is right only if the instance is repeated. */
  lemma {:induction false} StaleChecksum(board: Board, a: Byte, b: Byte)
    ensures var sent := SentAt(Run(Boot(board), OnceSealed(a)), [Unknown50(b)], 0);
            && |sent| == 60 && Word(sent, 34) != 0
            && (WireResidue(Plain, sent) == 0 <==> a == b)
  {
    var start, tr := Boot(board), OnceSealed(a);
    OnceSealedStates(board, a);
    UnknownAnswered(StateAt(start, tr, 1), a);
    UnknownAnswered(Run(start, tr), b);
    SealedOnce(board, a);
    StaleField(board, tr, Unknown50(b), Plain, 1);
  }
}
