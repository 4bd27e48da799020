/** The firmware as it stands (ncsi.c): globals, static buffers and one port updated in place.
    Every method is proved to compute the function of Protocol that specifies it; the ghost trace makes the whole
    state a fold of the inputs received since power-up. */
module Firmware {
  import opened Types
  import opened Wire
  import opened Protocol
  import Checksum
  import WordSwap

  /** NetworkPort_t: the one local channel. */
  class NetworkPort {
    var ready: bool
    var enabled: bool
    var txPassthrough: bool
    var vlanEnabled: bool
    var aenMcId: Byte
    var aenControl: U32
    var linkSettings: U32
    var oemLinkSettings: U32
    var broadcastSettings: U32
    const macFilters: array<MacFilter>
    var link: LinkCache
    var ncsiRx: U32
    var ncsiTx: U32
    var netRx: U32
    var netTx: U32
    var netDropped: U32

    ghost function State(): Port
      requires macFilters.Length == 8
      reads this, macFilters
    {
      Port(ready, enabled, txPassthrough, vlanEnabled, aenMcId, aenControl, linkSettings, oemLinkSettings,
           broadcastSettings, macFilters[..], link, ncsiRx, ncsiTx, netRx, netTx, netDropped)
    }

    /** Zeroed static storage. */
    constructor ()
      ensures fresh(macFilters) && macFilters.Length == 8 && State() == ZERO_PORT
    {
      ready, enabled, txPassthrough, vlanEnabled := false, false, false, false;
      aenMcId, aenControl, linkSettings, oemLinkSettings, broadcastSettings := 0, 0, 0, 0, 0;
      macFilters := new MacFilter[8](_ => ZERO_FILTER);
      link := LinkCache(false, false, false, false);
      ncsiRx, ncsiTx, netRx, netTx, netDropped := 0, 0, 0, 0, 0;
    }

    /** The loop of resetChannel. */
    method ClearFilters()
      requires macFilters.Length == 8
      modifies macFilters
      ensures macFilters[..] == ResetFilters(old(macFilters[..]))
    {
      ghost var before := macFilters[..];
      var i := 0;
      while i < MAX_MAC_FILTERS
        invariant 0 <= i <= MAX_MAC_FILTERS
        invariant forall k :: 0 <= k < i ==> macFilters[k] == before[k].(enabled := false)
        invariant forall k :: i <= k < MAX_MAC_FILTERS ==> macFilters[k] == before[k]
      {
        macFilters[i] := macFilters[i].(enabled := false);
        i := i + 1;
      }
      assert macFilters[..] == ResetFilters(before);
    }

    /** The part of resetChannel that touches the channel record. */
    method Reset()
      requires macFilters.Length == 8
      modifies this, macFilters
      ensures State() == ResetPort(old(State()))
    {
      ready := false;
      enabled := false;
      txPassthrough := false;
      vlanEnabled := false;
      broadcastSettings := 0;
      ClearFilters();
      ZeroStats();
    }

    /** The counters both reset and reload clear. */
    method ZeroStats()
      requires macFilters.Length == 8
      modifies this`ncsiRx, this`ncsiTx, this`netRx, this`netTx
      ensures State() == ZeroCounters(old(State()))
    {
      ncsiRx := 0;
      ncsiTx := 0;
      netRx := 0;
      netTx := 0;
    }

    /** The tracked copy of a Set MAC Address filter; slots past the table are not tracked. */
    method TrackFilter(slot: nat, filter: MacFilter)
      requires macFilters.Length == 8
      modifies macFilters
      ensures State() == if slot < MAX_MAC_FILTERS then old(State()).(filters := old(State()).filters[slot := filter])
                         else old(State())
    {
      if slot < MAX_MAC_FILTERS {
        macFilters[slot] := filter;
      }
    }

    /** Cache what a PHY status read reported; a failed read keeps the previous value. */
    method CacheLink(register: I32) returns (phyLinkUp: bool)
      requires macFilters.Length == 8
      modifies this`link
      ensures State() == old(State()).(link := ReadLink(old(link), register)) && phyLinkUp == link.up
    {
      if register >= 0 {
        phyLinkUp := register % 0x1_0000 / 4 % 2 == 1;
        link := link.(up := phyLinkUp, hcd := phyLinkUp);
      } else {
        phyLinkUp := link.up;
      }
      link := link.(up := phyLinkUp, autonegEnabled := true);
    }
  }

  /** The globals of ncsi.c. `calls` records what the hardware layer was asked to do, `trace` what was received. */
  class Responder {
    var localPackage: Byte
    var localChannel: Byte
    var computeChecksum: bool
    var selected: bool
    const port: NetworkPort
    const responseFrame: array<Byte>
    const linkStatusFrame: array<Byte>
    const capabilitiesFrame: array<Byte>
    const versionFrame: array<Byte>
    ghost const board: Board
    ghost var calls: seq<HalCall>
    ghost var trace: seq<Input>

    ghost function Repr(): set<object> {
      {this, port, port.macFilters, responseFrame, linkStatusFrame, capabilitiesFrame, versionFrame}
    }

    ghost predicate Valid() {
      && port.macFilters.Length == 8
      && responseFrame.Length == FRAME_SIZE && linkStatusFrame.Length == FRAME_SIZE
      && capabilitiesFrame.Length == FRAME_SIZE && versionFrame.Length == FRAME_SIZE
      && responseFrame != linkStatusFrame && responseFrame != capabilitiesFrame && responseFrame != versionFrame
      && linkStatusFrame != capabilitiesFrame && linkStatusFrame != versionFrame && capabilitiesFrame != versionFrame
    }

    ghost function Abs(): Device
      requires Valid()
      reads Repr()
    {
      Device(localPackage, localChannel, selected, computeChecksum, port.State(),
             Buffers(responseFrame[..], linkStatusFrame[..], capabilitiesFrame[..], versionFrame[..]))
    }

    /** The state and the calls made are those of the inputs received since power-up. */
    ghost predicate Consistent()
      reads Repr()
    {
      Valid() && Abs() == Run(Boot(board), trace) && calls == Calls(Boot(board), trace)
    }

    /** A received frame lies outside the firmware's own buffers. */
    ghost predicate External(frame: array<Byte>) {
      frame !in Repr()
    }

    ghost predicate Did(o: Outcome, callsBefore: seq<HalCall>)
      requires Valid()
      reads Repr()
    {
      Abs() == o.dev && calls == callsBefore + o.calls
    }

    ghost predicate Ran(before: Device, callsBefore: seq<HalCall>, h: Handler, f: seq<Byte>, hal: Hal)
      requires Valid() && |f| >= HEADER_SIZE + PayloadOf(h)
      reads Repr()
    {
      Did(RunHandler(before, h, f, hal), callsBefore)
    }

    constructor (board: Board)
      ensures Consistent() && fresh(Repr()) && this.board == board && trace == [] && calls == []
    {
      localPackage, localChannel, selected := 0, 0, false;
      computeChecksum := board.checksumDefault;
      port := new NetworkPort();
      responseFrame := new Byte[FRAME_SIZE](i requires 0 <= i < FRAME_SIZE => TemplateByte(board, Plain, i));
      linkStatusFrame := new Byte[FRAME_SIZE](i requires 0 <= i < FRAME_SIZE => TemplateByte(board, Link, i));
      capabilitiesFrame := new Byte[FRAME_SIZE](i requires 0 <= i < FRAME_SIZE => TemplateByte(board, Capabilities, i));
      versionFrame := new Byte[FRAME_SIZE](i requires 0 <= i < FRAME_SIZE => TemplateByte(board, Version, i));
      this.board := board;
      calls, trace := [], [];
      new;
      assert responseFrame[..] == Template(board, Plain);
      assert linkStatusFrame[..] == Template(board, Link);
      assert capabilitiesFrame[..] == Template(board, Capabilities);
      assert versionFrame[..] == Template(board, Version);
    }

    // ---- Sending ------------------------------------------------------------------------------

    method InitPort(force: bool)
      requires Valid()
      modifies this`calls
      ensures calls == old(calls) + [HalCall.InitPort(force)]
    {
      calls := calls + [HalCall.InitPort(force)];
    }

    /** NCSI_TxPacket_internal. With word swapping the packet goes through a 256-byte buffer; a longer one is refused
        before the hardware sees it. */
    method TxPacketInternal(packet: array<Byte>, len: nat, swapWords: bool, hal: Hal) returns (ok: bool)
      requires Valid() && len <= packet.Length
      modifies this`calls
      ensures !swapWords ==> calls == old(calls) + [TxFrame(packet[..len])] && ok == hal.txOk
      ensures swapWords && len <= 256 ==>
                calls == old(calls) + [TxFrame(WordSwap.Swapped(packet[..len]))] && ok == hal.txOk
      ensures swapWords && len > 256 ==> calls == old(calls) && !ok
    {
      if !swapWords {
        calls := calls + [TxFrame(packet[..len])];
        return hal.txOk;
      }
      var swapped := new Byte[WordSwap.SWAP_BUFFER](_ => 0);
      if len > swapped.Length {
        return false;
      }
      WordSwap.SwapInto(packet, len, swapped);
      calls := calls + [TxFrame(swapped[..len])];
      ok := hal.txOk;
    }

    /** NCSI_TxPacket: transmit and count a success. */
    method TxPacket(packet: array<Byte>, len: nat, hal: Hal)
      requires Valid() && len <= packet.Length
      modifies this`calls, port`ncsiTx
      ensures calls == old(calls) + [TxFrame(packet[..len])]
      ensures port.ncsiTx == if hal.txOk then Bump(old(port.ncsiTx)) else old(port.ncsiTx)
    {
      var ok := TxPacketInternal(packet, len, false, hal);
      if ok {
        port.ncsiTx := Bump(port.ncsiTx);
      }
    }

    /** NCSI_TxBePacket, which nothing in the repository calls: the packet goes out word-swapped and is not counted. */
    method TxBePacket(packet: array<Byte>, len: nat, hal: Hal)
      requires Valid() && len <= packet.Length
      modifies this`calls
      ensures calls == old(calls)
                       + if len <= 256 then [TxFrame(WordSwap.Swapped(packet[..len]))] else []
    {
      var _ := TxPacketInternal(packet, len, true, hal);
    }

    /** NCSI_APPLY_CHECKSUM_IF_ENABLED. */
    method ApplyChecksum(packet: array<Byte>, k: Kind)
      requires packet.Length == FRAME_SIZE
      modifies packet
      ensures packet[..] == Seal(computeChecksum, k, old(packet[..]))
    {
      if computeChecksum {
        ghost var _ := Checksum.ComputeChecksum(packet, REGION_START, ChecksumAt(k) - REGION_START, ChecksumAt(k));
      }
    }

    /** The header and code fields that the plain, capabilities and version builders write. */
    method FillIn(packet: array<Byte>, a: Answer)
      requires packet.Length == FRAME_SIZE && a.kind != Link
      modifies packet
      ensures packet[..] == Stamp(old(packet[..]), a)
    {
      packet[19] := a.channel;
      packet[18] := a.ctype;
      packet[17] := a.instance;
      Wr16(packet, 30, a.code);
      Wr16(packet, 32, a.reason);
    }

    method FillInLink(packet: array<Byte>, a: Answer)
      requires packet.Length == FRAME_SIZE && a.kind == Link
      modifies packet
      ensures packet[..] == Stamp(old(packet[..]), a)
    {
      packet[19] := a.channel;
      packet[17] := a.instance;
      Wr16(packet, 30, a.code);
      Wr16(packet, 32, a.reason);
      Wr32(packet, 34, a.status);
      Wr32(packet, 42, a.oem);
      Wr32(packet, 38, a.other);
    }

    method SendResponse(instance: Byte, channelId: Byte, controlId: Byte, code: U16, reason: U16, hal: Hal)
      requires Valid()
      modifies this`calls, port`ncsiTx, responseFrame
      ensures Valid()
      ensures Did(Transmit(old(Abs()),
                           Answer(Plain, instance, channelId, ResponseType(controlId), code, reason, 0, 0, 0), hal),
                  old(calls))
    {
      FillIn(responseFrame, Answer(Plain, instance, channelId, ResponseType(controlId), code, reason, 0, 0, 0));
      ApplyChecksum(responseFrame, Plain);
      TxPacket(responseFrame, TxLen(Plain), hal);
    }

    method SendLinkStatusResponse(a: Answer, hal: Hal)
      requires Valid() && a.kind == Link
      modifies this`calls, port`ncsiTx, linkStatusFrame
      ensures Valid() && Did(Transmit(old(Abs()), a, hal), old(calls))
    {
      FillInLink(linkStatusFrame, a);
      ApplyChecksum(linkStatusFrame, Link);
      TxPacket(linkStatusFrame, TxLen(Link), hal);
    }

    method SendCapabilities(a: Answer, hal: Hal)
      requires Valid() && a.kind == Capabilities
      modifies this`calls, port`ncsiTx, capabilitiesFrame
      ensures Valid() && Did(Transmit(old(Abs()), a, hal), old(calls))
    {
      FillIn(capabilitiesFrame, a);
      ApplyChecksum(capabilitiesFrame, Capabilities);
      TxPacket(capabilitiesFrame, TxLen(Capabilities), hal);
    }

    method SendVersion(a: Answer, hal: Hal)
      requires Valid() && a.kind == Version
      modifies this`calls, port`ncsiTx, versionFrame
      ensures Valid() && Did(Transmit(old(Abs()), a, hal), old(calls))
    {
      FillIn(versionFrame, a);
      ApplyChecksum(versionFrame, Version);
      TxPacket(versionFrame, TxLen(Version), hal);
    }

    static lemma AnswersOnly(d: Device, h: Handler, f: seq<Byte>, a: Answer, hal: Hal)
      requires (h == GetCapabilities || h == GetVersionId) && |f| >= HEADER_SIZE && a == HandlerAnswer(d.port, h, f)
      ensures RunHandler(d, h, f, hal) == Transmit(d, a, hal)
    {}

    method GetCapabilitiesHandler(frame: array<Byte>, hal: Hal)
      requires Valid() && External(frame) && frame.Length >= HEADER_SIZE
      modifies Repr()
      ensures Valid() && Ran(old(Abs()), old(calls), GetCapabilities, old(frame[..]), hal)
    {
      var a := Answer(Capabilities, frame[17], frame[19], ResponseType(frame[18]), COMPLETE, NO_REASON, 0, 0, 0);
      AnswersOnly(Abs(), GetCapabilities, frame[..], a, hal);
      SendCapabilities(a, hal);
    }

    method GetVersionIdHandler(frame: array<Byte>, hal: Hal)
      requires Valid() && External(frame) && frame.Length >= HEADER_SIZE
      modifies Repr()
      ensures Valid() && Ran(old(Abs()), old(calls), GetVersionId, old(frame[..]), hal)
    {
      var a := Answer(Version, frame[17], frame[19], ResponseType(frame[18]), COMPLETE, NO_REASON, 0, 0, 0);
      AnswersOnly(Abs(), GetVersionId, frame[..], a, hal);
      SendVersion(a, hal);
    }

    // ---- Reset --------------------------------------------------------------------------------

    method ResetChannel(hal: Hal)
      requires Valid()
      modifies port, port.macFilters, this`calls
      ensures Valid() && Did(ResetDevice(old(Abs()), hal), old(calls))
    {
      port.Reset();
      calls := calls + [GetPhy, ResetPhy(hal.phy)];
    }

    method ReloadChannel(force: bool)
      requires Valid()
      modifies port, this`calls
      ensures Valid() && Abs() == old(Abs()).(port := ZeroCounters(old(Abs()).port))
      ensures calls == old(calls) + [HalCall.InitPort(force)]
    {
      port.ZeroStats();
      InitPort(force);
    }

    // ---- Command handlers ---------------------------------------------------------------------

    /** The end of most handlers: answer the frame after the effect is in place. */
    method Respond(ghost before: Device, ghost callsBefore: seq<HalCall>, ghost h: Handler,
                   frame: array<Byte>, code: U16, reason: U16, hal: Hal)
      requires Valid() && External(frame) && frame.Length >= HEADER_SIZE + PayloadOf(h)
      requires !h.SelectPackage? && !h.DeselectPackage?
      requires Abs() == before.(port := Effect(before.port, h, frame[..], hal))
      requires calls == callsBefore + EffectCalls(before.port, h, frame[..], hal)
      requires HandlerAnswer(port.State(), h, frame[..]) == PlainAnswer(frame[..], code, reason)
      modifies this`calls, port`ncsiTx, responseFrame
      ensures Valid() && Ran(before, callsBefore, h, old(frame[..]), hal)
    {
      SendResponse(frame[17], frame[19], frame[18], code, reason, hal);
    }

    method ClearInitialStateHandler(frame: array<Byte>, hal: Hal)
      requires Valid() && External(frame) && frame.Length >= HEADER_SIZE
      modifies Repr()
      ensures Valid() && Ran(old(Abs()), old(calls), ClearInitialState, old(frame[..]), hal)
    {
      ghost var before, callsBefore := Abs(), calls;
      port.ready := true;
      Respond(before, callsBefore, ClearInitialState, frame, COMPLETE, NO_REASON, hal);
    }

    method SelectPackageHandler(frame: array<Byte>, hal: Hal)
      requires Valid() && External(frame) && frame.Length >= HEADER_SIZE + 4
      modifies Repr()
      ensures Valid() && Ran(old(Abs()), old(calls), SelectPackage, old(frame[..]), hal)
    {
      selected := true;
      SendResponse(frame[17], frame[19], frame[18], COMPLETE, NO_REASON, hal);
    }

    method DeselectPackageHandler(frame: array<Byte>, hal: Hal)
      requires Valid() && External(frame) && frame.Length >= HEADER_SIZE
      modifies Repr()
      ensures Valid() && Ran(old(Abs()), old(calls), DeselectPackage, old(frame[..]), hal)
    {
      SendResponse(frame[17], frame[19], frame[18], COMPLETE, NO_REASON, hal);
      selected := false;
    }

    method EnableChannelHandler(frame: array<Byte>, hal: Hal)
      requires Valid() && External(frame) && frame.Length >= HEADER_SIZE
      modifies Repr()
      ensures Valid() && Ran(old(Abs()), old(calls), EnableChannel, old(frame[..]), hal)
    {
      ghost var before, callsBefore := Abs(), calls;
      port.enabled := true;
      InitPort(false);
      Respond(before, callsBefore, EnableChannel, frame, COMPLETE, NO_REASON, hal);
    }

    method DisableChannelHandler(frame: array<Byte>, hal: Hal)
      requires Valid() && External(frame) && frame.Length >= HEADER_SIZE + 4
      modifies Repr()
      ensures Valid() && Ran(old(Abs()), old(calls), DisableChannel, old(frame[..]), hal)
    {
      ghost var before, callsBefore := Abs(), calls;
      port.enabled := false;
      Respond(before, callsBefore, DisableChannel, frame, COMPLETE, NO_REASON, hal);
    }

    method ResetChannelHandler(frame: array<Byte>, hal: Hal)
      requires Valid() && External(frame) && frame.Length >= HEADER_SIZE
      modifies Repr()
      ensures Valid() && Ran(old(Abs()), old(calls), Handler.ResetChannel, old(frame[..]), hal)
    {
      ghost var before, callsBefore := Abs(), calls;
      ResetChannel(hal);
      Respond(before, callsBefore, Handler.ResetChannel, frame, COMPLETE, NO_REASON, hal);
    }

    method EnableChannelNetworkTxHandler(frame: array<Byte>, hal: Hal)
      requires Valid() && External(frame) && frame.Length >= HEADER_SIZE
      modifies Repr()
      ensures Valid() && Ran(old(Abs()), old(calls), EnableNetworkTx, old(frame[..]), hal)
    {
      ghost var before, callsBefore := Abs(), calls;
      port.txPassthrough := true;
      Respond(before, callsBefore, EnableNetworkTx, frame, COMPLETE, NO_REASON, hal);
    }

    method DisableChannelNetworkTxHandler(frame: array<Byte>, hal: Hal)
      requires Valid() && External(frame) && frame.Length >= HEADER_SIZE
      modifies Repr()
      ensures Valid() && Ran(old(Abs()), old(calls), DisableNetworkTx, old(frame[..]), hal)
    {
      ghost var before, callsBefore := Abs(), calls;
      port.txPassthrough := false;
      Respond(before, callsBefore, DisableNetworkTx, frame, COMPLETE, NO_REASON, hal);
    }

    method AenEnableHandler(frame: array<Byte>, hal: Hal)
      requires Valid() && External(frame) && frame.Length >= HEADER_SIZE + 8
      modifies Repr()
      ensures Valid() && Ran(old(Abs()), old(calls), AenEnable, old(frame[..]), hal)
    {
      ghost var before, callsBefore := Abs(), calls;
      port.aenMcId := frame[33];
      port.aenControl := Be32(frame[34], frame[35], frame[36], frame[37]);
      Respond(before, callsBefore, AenEnable, frame, COMPLETE, NO_REASON, hal);
    }

    method SetLinkHandler(frame: array<Byte>, hal: Hal)
      requires Valid() && External(frame) && frame.Length >= HEADER_SIZE + 8
      modifies Repr()
      ensures Valid() && Ran(old(Abs()), old(calls), SetLink, old(frame[..]), hal)
    {
      ghost var before, callsBefore := Abs(), calls;
      port.linkSettings := Be32(frame[30], frame[31], frame[32], frame[33]);
      port.oemLinkSettings := Be32(frame[34], frame[35], frame[36], frame[37]);
      Respond(before, callsBefore, SetLink, frame, COMPLETE, NO_REASON, hal);
    }

    method DisableVlanHandler(frame: array<Byte>, hal: Hal)
      requires Valid() && External(frame) && frame.Length >= HEADER_SIZE
      modifies Repr()
      ensures Valid() && Ran(old(Abs()), old(calls), DisableVlan, old(frame[..]), hal)
    {
      ghost var before, callsBefore := Abs(), calls;
      port.vlanEnabled := false;
      Respond(before, callsBefore, DisableVlan, frame, COMPLETE, NO_REASON, hal);
    }

    method EnableVlanHandler(frame: array<Byte>, hal: Hal)
      requires Valid() && External(frame) && frame.Length >= HEADER_SIZE + 4
      modifies Repr()
      ensures Valid() && Ran(old(Abs()), old(calls), EnableVlan, old(frame[..]), hal)
    {
      ghost var before, callsBefore := Abs(), calls;
      var mode := frame[33];
      port.vlanEnabled := mode != 0;
      Respond(before, callsBefore, EnableVlan, frame, COMPLETE, NO_REASON, hal);
    }

    method EnableBroadcastFilteringHandler(frame: array<Byte>, hal: Hal)
      requires Valid() && External(frame) && frame.Length >= HEADER_SIZE + 4
      modifies Repr()
      ensures Valid() && Ran(old(Abs()), old(calls), EnableBroadcastFilter, old(frame[..]), hal)
    {
      ghost var before, callsBefore := Abs(), calls;
      port.broadcastSettings := Be32(frame[30], frame[31], frame[32], frame[33]);
      Respond(before, callsBefore, EnableBroadcastFilter, frame, COMPLETE, NO_REASON, hal);
    }

    method DisableBroadcastFilteringHandler(frame: array<Byte>, hal: Hal)
      requires Valid() && External(frame) && frame.Length >= HEADER_SIZE
      modifies Repr()
      ensures Valid() && Ran(old(Abs()), old(calls), DisableBroadcastFilter, old(frame[..]), hal)
    {
      ghost var before, callsBefore := Abs(), calls;
      port.broadcastSettings := 0;
      Respond(before, callsBefore, DisableBroadcastFilter, frame, COMPLETE, NO_REASON, hal);
    }

    method UnknownHandler(frame: array<Byte>, hal: Hal)
      requires Valid() && External(frame) && frame.Length >= HEADER_SIZE
      modifies Repr()
      ensures Valid() && Ran(old(Abs()), old(calls), Unknown, old(frame[..]), hal)
    {
      ghost var before, callsBefore := Abs(), calls;
      Respond(before, callsBefore, Unknown, frame, UNSUPPORTED, UNKNOWN_COMMAND, hal);
    }

    method SetVlanFilterHandler(frame: array<Byte>, hal: Hal)
      requires Valid() && External(frame) && frame.Length >= HEADER_SIZE + 8
      modifies Repr()
      ensures Valid() && Ran(old(Abs()), old(calls), SetVlanFilter, old(frame[..]), hal)
    {
      ghost var before, callsBefore := Abs(), calls;
      var vlanId := Be16(frame[32], frame[33]) % 0x1000;
      var enable := frame[37] % 2 == 1;
      if enable && vlanId == 0 {
        Respond(before, callsBefore, SetVlanFilter, frame, FAILED, VLAN_TAG_INVALID, hal);
        return;
      }
      Respond(before, callsBefore, SetVlanFilter, frame, COMPLETE, NO_REASON, hal);
    }

    /** Program the hardware filter and track it. */
    method ProgramFilter(frame: array<Byte>, hal: Hal)
      requires Valid() && External(frame) && frame.Length >= HEADER_SIZE + 8
      modifies port.macFilters, this`calls
      ensures port.State() == Effect(old(port.State()), SetMacAddress, old(frame[..]), hal)
      ensures calls == old(calls) + EffectCalls(old(port.State()), SetMacAddress, old(frame[..]), hal)
    {
      ghost var f := frame[..];
      var macNumber: U32 := frame[36];
      var mac := frame[30..36];
      var enable := frame[37] / 0x80;
      var at := frame[37] % 8;
      if macNumber > 0 {
        macNumber := macNumber - 1;
      }
      assert mac == MacOf(f) && macNumber == SlotOf(f);
      var high := Be16(mac[0], mac[1]);
      var low := Be32(mac[2], mac[3], mac[4], mac[5]);
      calls := calls + [SetMacAddr(high, low, macNumber, enable == 1)];
      port.TrackFilter(macNumber, MacFilter(enable != 0, at, mac));
    }

    method SetMacAddressHandler(frame: array<Byte>, hal: Hal)
      requires Valid() && External(frame) && frame.Length >= HEADER_SIZE + 8
      modifies Repr()
      ensures Valid() && Ran(old(Abs()), old(calls), SetMacAddress, old(frame[..]), hal)
    {
      ghost var before, callsBefore := Abs(), calls;
      ProgramFilter(frame, hal);
      Respond(before, callsBefore, SetMacAddress, frame, COMPLETE, NO_REASON, hal);
    }

    /** Ask the PHY, fall back to the cache, and kick a link that is down. */
    method RefreshLink(ghost f: seq<Byte>, hal: Hal) returns (status: U32)
      requires Valid() && |f| >= HEADER_SIZE
      modifies port`link, this`calls
      ensures port.State() == Effect(old(port.State()), GetLinkStatus, f, hal)
      ensures calls == old(calls) + EffectCalls(old(port.State()), GetLinkStatus, f, hal)
      ensures status == LinkStatusWord(port.link)
    {
      calls := calls + [GetPhy, ReadPhy(hal.phy, 1)];
      var phyLinkUp := port.CacheLink(hal.phyRegister);
      if !phyLinkUp {
        calls := calls + [IsLinkUp];
        if !hal.linkUp {
          calls := calls + [ResetLink];
        }
      }
      status := Bit(port.link.up) + Bit(port.link.hcd) * 2 + Bit(port.link.autonegEnabled) * 0x20
                + Bit(port.link.autonegComplete) * 0x40;
    }

    method GetLinkStatusHandler(frame: array<Byte>, hal: Hal)
      requires Valid() && External(frame) && frame.Length >= HEADER_SIZE
      modifies Repr()
      ensures Valid() && Ran(old(Abs()), old(calls), GetLinkStatus, old(frame[..]), hal)
    {
      var status := RefreshLink(frame[..], hal);
      SendLinkStatusResponse(
        Answer(Link, frame[17], frame[19], ResponseType(frame[18]), COMPLETE, NO_REASON, status, 0, 0), hal);
    }

    // ---- Dispatch -----------------------------------------------------------------------------

    /** The call through handler->fn. */
    method Dispatch(fn: Handler, frame: array<Byte>, hal: Hal)
      requires Valid() && External(frame) && frame.Length >= HEADER_SIZE + PayloadOf(fn)
      modifies Repr()
      ensures Valid() && Ran(old(Abs()), old(calls), fn, old(frame[..]), hal)
    {
      match fn {
        case ClearInitialState => ClearInitialStateHandler(frame, hal);
        case SelectPackage => SelectPackageHandler(frame, hal);
        case DeselectPackage => DeselectPackageHandler(frame, hal);
        case EnableChannel => EnableChannelHandler(frame, hal);
        case DisableChannel => DisableChannelHandler(frame, hal);
        case ResetChannel => ResetChannelHandler(frame, hal);
        case EnableNetworkTx => EnableChannelNetworkTxHandler(frame, hal);
        case DisableNetworkTx => DisableChannelNetworkTxHandler(frame, hal);
        case AenEnable => AenEnableHandler(frame, hal);
        case SetLink => SetLinkHandler(frame, hal);
        case DisableVlan => DisableVlanHandler(frame, hal);
        case EnableVlan => EnableVlanHandler(frame, hal);
        case EnableBroadcastFilter => EnableBroadcastFilteringHandler(frame, hal);
        case DisableBroadcastFilter => DisableBroadcastFilteringHandler(frame, hal);
        case Unknown => UnknownHandler(frame, hal);
        case SetVlanFilter => SetVlanFilterHandler(frame, hal);
        case SetMacAddress => SetMacAddressHandler(frame, hal);
        case GetLinkStatus => GetLinkStatusHandler(frame, hal);
        case GetVersionId => GetVersionIdHandler(frame, hal);
        case GetCapabilities => GetCapabilitiesHandler(frame, hal);
      }
    }

    /** Count the frame, mark the package selected and run the handler. */
    method Execute(fn: Handler, frame: array<Byte>, hal: Hal)
      requires Valid() && External(frame) && frame.Length >= HEADER_SIZE + PayloadOf(fn)
      modifies Repr()
      ensures Valid()
      ensures Ran(old(Abs()).(selected := true, port := old(Abs()).port.(ncsiRx := Bump(old(Abs()).port.ncsiRx))),
                  old(calls), fn, old(frame[..]), hal)
    {
      port.ncsiRx := Bump(port.ncsiRx);
      selected := true;
      Dispatch(fn, frame, hal);
    }

    /** A known command addressed to this channel. */
    method HandleKnown(h: Entry, ch: Byte, frame: array<Byte>, hal: Hal)
      requires Valid() && External(frame) && Readable(Abs(), frame[..])
      requires Addressed(Abs(), frame[..]) && Lookup(frame[18]) == Some(h) && ch == frame[19] % 0x20
      modifies Repr()
      ensures Valid() && Did(HandleFrame(old(Abs()), old(frame[..]), hal), old(calls))
    {
      ghost var f, d := frame[..], Abs();
      var payloadLength := Be16(frame[20], frame[21]) % 0x1000;
      if h.payloadLength != payloadLength {
        assert Decide(d, f) == Reject(FAILED, INVALID_LENGTH, false);
        SendResponse(frame[17], frame[19], frame[18], FAILED, INVALID_LENGTH, hal);
      } else if (h.packageCommand && ch == CHANNEL_PACKAGE) || h.ignoreInit {
        assert Decide(d, f) == Decision.Execute(h.fn);
        Execute(h.fn, frame, hal);
      } else if ch != localChannel {
        assert Decide(d, f) == Reject(FAILED, INVALID_PARAM, false);
        SendResponse(frame[17], frame[19], frame[18], FAILED, INVALID_PARAM, hal);
      } else {
        HandleChannelCommand(h, frame, hal);
      }
    }

    /** A command for this very channel that is not exempt from initialisation. */
    method HandleChannelCommand(h: Entry, frame: array<Byte>, hal: Hal)
      requires Valid() && External(frame) && Readable(Abs(), frame[..])
      requires Decide(Abs(), frame[..])
               == if port.ready then Decision.Execute(h.fn) else Reject(FAILED, INIT_REQUIRED, true)
      modifies Repr()
      ensures Valid() && Did(HandleFrame(old(Abs()), old(frame[..]), hal), old(calls))
    {
      selected := true;
      if !port.ready {
        SendResponse(frame[17], frame[19], frame[18], FAILED, INIT_REQUIRED, hal);
      } else {
        Execute(h.fn, frame, hal);
      }
    }

    method HandleNcsiFrame(frame: array<Byte>, hal: Hal)
      requires Valid() && External(frame) && Readable(Abs(), frame[..])
      modifies Repr()
      ensures Valid() && Did(HandleFrame(old(Abs()), old(frame[..]), hal), old(calls))
    {
      var package := frame[19] / 0x20;
      if package != localPackage {
        return;
      }
      var ch := frame[19] % 0x20;
      var addressedToUs := ch == CHANNEL_PACKAGE || ch == localChannel;
      if !addressedToUs {
        return;
      }
      var command := frame[18];
      var handler := if command < TABLE_SIZE then HandlerTable(command) else None;
      match handler {
        case Some(h) => HandleKnown(h, ch, frame, hal);
        case None => SendResponse(frame[17], frame[19], frame[18], UNSUPPORTED, UNKNOWN_COMMAND, hal);
      }
    }

    // ---- Pass-through -------------------------------------------------------------------------

    /** The filter search of ncsi_passthrough_tx_from_mc. */
    method FindSource(sourceMac: Mac) returns (matches: bool)
      requires Valid()
      ensures matches == SourceMatches(port.macFilters[..], sourceMac)
    {
      matches := false;
      var i := 0;
      while i < MAX_MAC_FILTERS
        invariant 0 <= i <= MAX_MAC_FILTERS
        invariant forall k :: 0 <= k < i ==> port.macFilters[k] != MacFilter(true, 0, sourceMac)
      {
        var filter := port.macFilters[i];
        if filter.enabled && filter.addressType == 0 {
          var same := true;
          var b := 0;
          while b < 6
            invariant 0 <= b <= 6
            invariant same ==> forall k :: 0 <= k < b ==> filter.mac[k] == sourceMac[k]
            invariant !same ==> filter.mac != sourceMac
            decreases 6 - b, same
          {
            if filter.mac[b] != sourceMac[b] {
              same := false;
              break;
            }
            b := b + 1;
          }
          if same {
            assert filter == MacFilter(true, 0, sourceMac);
            return true;
          }
        }
        i := i + 1;
      }
    }

    method PassthroughTxFromMc(sourceMac: Mac, frame: array<Byte>, len: nat, hal: Hal) returns (ok: bool)
      requires Valid() && len <= frame.Length
      modifies port`netTx, this`calls
      ensures Valid() && Did(Forward(old(Abs()), sourceMac, frame[..len], hal), old(calls))
      ensures ok <==> Forward(old(Abs()), sourceMac, frame[..len], hal).calls != [] && hal.txOk
    {
      if !port.txPassthrough {
        return false;
      }
      var matches := FindSource(sourceMac);
      if !matches {
        return false;
      }
      calls := calls + [TxFrame(frame[..len])];
      ok := hal.txOk;
      if ok {
        port.netTx := Bump(port.netTx);
      }
    }

    /** ncsi_on_rx_frame: the first len bytes of the buffer are the received frame. */
    method ReceiveFrame(buf: array<Byte>, len: nat, hal: Hal)
      requires Valid() && External(buf) && CanReceive(Abs(), buf[..], len)
      modifies Repr()
      ensures Valid() && Did(Receive(old(Abs()), old(buf[..]), len, hal), old(calls))
    {
      if len < HEADER_SIZE {
        return;
      }
      if Be16(buf[12], buf[13]) == ETHER_TYPE_NCSI {
        HandleNcsiFrame(buf, hal);
        return;
      }
      var _ := PassthroughTxFromMc(buf[6..12], buf, len, hal);
    }

    /** The same, recorded in the trace. */
    method OnRxFrame(buf: array<Byte>, len: nat, hal: Hal)
      requires Consistent() && External(buf) && ValidEvent(Rx(buf[..], len))
      modifies Repr()
      ensures Consistent() && trace == old(trace) + [RawInput(Rx(old(buf[..]), len), hal)]
    {
      ghost var x: Input := RawInput(Rx(buf[..], len), hal);
      ghost var before := trace;
      RunStep(Boot(board), trace, x);
      ReceiveFrame(buf, len, hal);
      trace := before + [x];
    }

    /** The body of NCSI_handlePassthrough for the one port. */
    method PollNetwork(hal: Hal)
      requires Valid()
      modifies this`calls, port`netDropped
      ensures Valid() && Did(Step(old(Abs()), RawInput(Poll, hal)), old(calls))
    {
      if port.enabled {
        calls := calls + [PassthroughRx];
        if !hal.rxOk {
          port.netDropped := Bump(port.netDropped);
        }
      }
    }

    /** NCSI_handlePassthrough, recorded in the trace. */
    method HandlePassthrough(hal: Hal)
      requires Consistent()
      modifies Repr()
      ensures Consistent() && trace == old(trace) + [RawInput(Poll, hal)]
    {
      ghost var x: Input := RawInput(Poll, hal);
      RunStep(Boot(board), trace, x);
      PollNetwork(hal);
      trace := trace + [x];
    }

    method Start(package: Byte, channel: Byte, hal: Hal)
      requires Valid() && ValidEvent(Event.Init(package, channel))
      modifies this`localPackage, this`localChannel, this`calls, port, port.macFilters
      ensures Valid() && Did(Step(old(Abs()), RawInput(Event.Init(package, channel), hal)), old(calls))
    {
      localPackage := package;
      localChannel := channel;
      ResetChannel(hal);
    }

    /** NCSI_init with the two straps the board reports. */
    method Init(package: Byte, channel: Byte, hal: Hal)
      requires Consistent() && ValidEvent(Event.Init(package, channel))
      modifies Repr()
      ensures Consistent() && trace == old(trace) + [RawInput(Event.Init(package, channel), hal)]
    {
      ghost var x: Input := RawInput(Event.Init(package, channel), hal);
      RunStep(Boot(board), trace, x);
      Start(package, channel, hal);
      trace := trace + [x];
    }

    /** NCSI_reload. */
    method Reload(force: bool, hal: Hal)
      requires Consistent()
      modifies Repr()
      ensures Consistent() && trace == old(trace) + [RawInput(Event.Reload(force), hal)]
    {
      ghost var x: Input := RawInput(Event.Reload(force), hal);
      RunStep(Boot(board), trace, x);
      ReloadChannel(force);
      trace := trace + [x];
    }

    /** NCSI_SetComputeChecksum. */
    method SetComputeChecksum(enable: bool, ghost hal: Hal)
      requires Consistent()
      modifies Repr()
      ensures Consistent() && trace == old(trace) + [RawInput(SetChecksum(enable), hal)]
    {
      ghost var x: Input := RawInput(SetChecksum(enable), hal);
      RunStep(Boot(board), trace, x);
      computeChecksum := enable;
      trace := trace + [x];
    }
  }
}
