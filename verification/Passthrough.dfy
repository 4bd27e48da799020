/** Pass-through of BMC traffic and the two copies of the MAC filter table (sections 6.1.11 and 8.4.34 of DSP0222). */
module Passthrough {
  import opened Types
  import opened Wire
  import opened Protocol
  import opened Manual
  import opened Steps
  import opened Compliance
  import opened Runs

  /** The current filters name this source: some slot was last programmed, since the last reset, as an enabled unicast
      filter with this address. */
  ghost predicate Configured(start: Device, tr: seq<Input>, source: Mac) {
    exists k: nat :: k < 8 && Since(SlotIs(k, MacFilter(true, 0, source)), start, tr)
  }

  lemma SameSource(p: Port, source: Mac)
    ensures SourceMatches(p.filters, source) == KnownSource(p, source)
  {
    forall i | 0 <= i < 8
      ensures p.filters[i] == MacFilter(true, 0, source)
              <==> p.filters[i].enabled && p.filters[i].addressType == 0 && p.filters[i].mac == source
    {}
  }

  /** The filter search succeeds if and only if the run's history configures the source. */
  lemma {:induction false} SourceHistory(board: Board, tr: seq<Input>, source: Mac)
    ensures KnownSource(Run(Boot(board), tr).port, source) <==> Configured(Boot(board), tr, source)
  {
    var d := Run(Boot(board), tr);
    SameSource(d.port, source);
    forall k: nat | k < 8
      ensures d.port.filters[k] == MacFilter(true, 0, source)
              <==> Since(SlotIs(k, MacFilter(true, 0, source)), Boot(board), tr)
    {
      FactHistory(SlotIs(k, MacFilter(true, 0, source)), Boot(board), tr);
    }
  }

  /** Over every run a frame from the BMC that is not a control frame is handed to the transmitter exactly once and
      unmodified if the latest of Enable Network TX, Disable Network TX and reset is the first and its source is
      configured; otherwise nothing at all happens to the hardware. A frame too short for a header is ignored. */
  lemma {:induction false} PassThroughHistory(board: Board, tr: seq<Input>, x: Input)
    requires x.event.Rx? && !ControlFrame(x.event)
    ensures var start := Boot(board); var o := Step(Run(start, tr), x);
            && o.calls == (if x.event.len >= 30 && Since(TxEnabled, start, tr)
                              && Configured(start, tr, x.event.buf[6..12])
                           then [TxFrame(x.event.buf[..x.event.len])] else [])
            && Config(o.dev.port) == Config(Run(start, tr).port)
  {
    var d := Run(Boot(board), tr);
    ControlByBytes(x.event);
    StepRecord(d, x);
    FactHistory(TxEnabled, Boot(board), tr);
    if x.event.len >= 30 {
      SourceHistory(board, tr, x.event.buf[6..12]);
      SameSource(d.port, x.event.buf[6..12]);
    }
  }

  /** What Set MAC Address stores, from the bytes of any accepted frame: MAC numbers (byte 36) 0 and 1 both mean the
      first slot, n up to 8 the n-th, and larger numbers change no tracked slot. The filter is enabled by bit 7 of byte
      37, its address type is the low three bits, its address bytes 30 to 35. */
  lemma {:induction false} SlotNumbers(d: Device, x: Input)
    requires Accepted(d, x) == Some(0x0E)
    ensures var f := x.event.buf; var n := f[36]; var s := d.port.filters; var t := Step(d, x).dev.port.filters;
            && (n > 8 ==> t == s)
            && (n <= 8 ==>
                  var k := if n == 0 then 0 else n - 1;
                  && (t[k].enabled <==> f[37] >= 128) && t[k].mac == f[30..36]
                  && t[k].addressType < 8
                  && (exists q :: 0 <= q < 32 && f[37] as int == 8 * q + t[k].addressType as int)
                  && forall i :: 0 <= i < 8 && i != k ==> t[i] == s[i])
  {
    StepRecord(d, x);
    assert Config(Step(d, x).dev.port).filters == Step(d, x).dev.port.filters;
    LowBits(x.event.buf[37]);
  }

  lemma LowBits(b: Byte)
    ensures exists q :: 0 <= q < 32 && b as int == 8 * q + b as int % 8
  {
    assert b as int == 8 * (b / 8) + b as int % 8;
  }

  // ---- The hardware's own filter table ------------------------------------------------------

  datatype HalFilter = HalFilter(mac: Mac, enable: bool)

  /** Network_SetMACAddr unpacks the six address bytes from the two words. */
  function UnpackMac(high: U16, low: U32): Mac {
    [high / 0x100, high % 0x100, low / 0x100_0000, low / 0x1_0000 % 0x100, low / 0x100 % 0x100, low % 0x100]
  }

  lemma {:induction false} UnpackPack(m: Mac)
    ensures UnpackMac(PackHigh(m), PackLow(m)) == m
  {
    BytesOfBe32(m[2], m[3], m[4], m[5]);
  }

  /** The other way round: no two pairs of words unpack to the same address. */
  lemma {:induction false} PackUnpack(high: U16, low: U32)
    ensures PackHigh(UnpackMac(high, low)) == high && PackLow(UnpackMac(high, low)) == low
  {
    Digits(low);
  }

  /** How slot k was last programmed. */
  function HalSlot(calls: seq<HalCall>, k: nat): Option<HalFilter> {
    if |calls| == 0 then None
    else match calls[|calls| - 1]
      case SetMacAddr(high, low, index, enable) =>
        if index == k then Some(HalFilter(UnpackMac(high, low), enable)) else HalSlot(calls[..|calls| - 1], k)
      case _ => HalSlot(calls[..|calls| - 1], k)
  }

  lemma {:induction false} HalSlotAppend(calls: seq<HalCall>, more: seq<HalCall>, k: nat)
    ensures HalSlot(calls + more, k) == if HalSlot(more, k).Some? then HalSlot(more, k) else HalSlot(calls, k)
    decreases |more|
  {
    if |more| == 0 {
      assert calls + more == calls;
    } else {
      assert (calls + more)[..|calls + more| - 1] == calls + more[..|more| - 1];
      HalSlotAppend(calls, more[..|more| - 1], k);
    }
  }

  /** One input programs a hardware slot exactly when it is an accepted Set MAC Address for it. */
  predicate Programs(d: Device, x: Input, k: nat) {
    Accepted(d, x) == Some(0x0E)
    && (x.event.buf[36] as int == k + 1 || (k == 0 && x.event.buf[36] == 0))
  }

  lemma {:induction false} NoFilterCalls(calls: seq<HalCall>, k: nat)
    requires forall c :: c in calls ==> !c.SetMacAddr?
    ensures HalSlot(calls, k) == None
  {
    if |calls| > 0 { NoFilterCalls(calls[..|calls| - 1], k); }
  }

  lemma StepPrograms(d: Device, x: Input, k: nat)
    ensures HalSlot(Step(d, x).calls, k) ==
            if Programs(d, x, k) then Some(HalFilter(x.event.buf[30..36], x.event.buf[37] >= 128)) else None
  {
    InputAccepted(d, x);
    if Accepted(d, x) == Some(0x0E) {
      SetMacCalls(d, x);
      FilterByBytes(x.event.buf);
      UnpackPack(MacOf(x.event.buf));
      ProgramThenSend(Step(d, x).calls, k);
    } else {
      OtherCalls(d, x);
      NoFilterCalls(Step(d, x).calls, k);
    }
  }

  lemma ProgramThenSend(calls: seq<HalCall>, k: nat)
    requires |calls| == 2 && calls[0].SetMacAddr? && calls[1].TxFrame?
    ensures HalSlot(calls, k) == if calls[0].index == k
                                 then Some(HalFilter(UnpackMac(calls[0].high16, calls[0].low32), calls[0].enable))
                                 else None
  {
    var first := calls[..1];
    assert first[0] == calls[0] && first[..0] == [];
    assert HalSlot(first[..0], k) == None;
    assert HalSlot(calls, k) == HalSlot(first, k);
  }

  lemma SetMacCalls(d: Device, x: Input)
    requires Executes(d, x) == Some(SetMacAddress)
    ensures var f := x.event.buf; var calls := Step(d, x).calls;
            |calls| == 2 && calls[1].TxFrame?
            && calls[0] == SetMacAddr(PackHigh(MacOf(f)), PackLow(MacOf(f)), SlotOf(f), EnableOf(f))
  {}

  lemma OtherCalls(d: Device, x: Input)
    requires Executes(d, x) != Some(SetMacAddress)
    ensures forall c :: c in Step(d, x).calls ==> !c.SetMacAddr?
  {}

  /** A reset is more recent than the last programming of slot k. */
  predicate ResetSinceProgrammed(start: Device, tr: seq<Input>, k: nat) {
    if |tr| == 0 then false
    else
      var before, x := tr[..|tr| - 1], tr[|tr| - 1];
      if Programs(Run(start, before), x, k) then false
      else Resets(Run(start, before), x) || ResetSinceProgrammed(start, before, k)
  }

  /** The two filter tables over every run. A tracked slot is enabled with address m if and only if the hardware slot
      was last programmed as enabled with m and no reset came later: Reset Channel clears the tracked slots and does not
      tell the hardware. */
  lemma {:induction false} FilterTablesAgree(board: Board, tr: seq<Input>, k: nat, m: Mac)
    requires k < 8
    ensures var start := Boot(board); var slot := Run(start, tr).port.filters[k];
            slot.enabled && slot.mac == m <==>
            HalSlot(Calls(start, tr), k) == Some(HalFilter(m, true)) && !ResetSinceProgrammed(start, tr, k)
  {
    var start := Boot(board);
    if |tr| > 0 {
      var before, x := tr[..|tr| - 1], tr[|tr| - 1];
      FilterTablesAgree(board, before, k, m);
      HalSlotAppend(Calls(start, before), Step(Run(start, before), x).calls, k);
      StepPrograms(Run(start, before), x, k);
      SlotStep(Run(start, before), x, k);
    }
  }

  lemma SlotStep(d: Device, x: Input, k: nat)
    requires k < 8
    ensures Step(d, x).dev.port.filters[k] ==
            if Programs(d, x, k) then FilterIn(x.event.buf)
            else if Resets(d, x) then d.port.filters[k].(enabled := false)
            else d.port.filters[k]
  {
    StepRecord(d, x);
    assert Config(Step(d, x).dev.port).filters == Step(d, x).dev.port.filters;
    if Accepted(d, x).Some? { RecordSlot(d.port, Accepted(d, x).value, x.event.buf, x.hal, k); }
  }

  lemma RecordSlot(p: Port, c: Byte, f: seq<Byte>, hal: Hal, k: nat)
    requires k < 8 && Complete(c, f)
    ensures Config(Record(p, c, f, hal)).filters[k] ==
            if c == 0x0E && Slot(f) == k then FilterIn(f)
            else if c == 0x05 then p.filters[k].(enabled := false)
            else p.filters[k]
  {}

  /** In every reachable state each enabled tracked slot is programmed in the hardware with the same six bytes. */
  lemma {:induction false} TrackedImpliesProgrammed(board: Board, tr: seq<Input>, k: nat)
    requires k < 8 && Run(Boot(board), tr).port.filters[k].enabled
    ensures HalSlot(Calls(Boot(board), tr), k) == Some(HalFilter(Run(Boot(board), tr).port.filters[k].mac, true))
  {
    FilterTablesAgree(board, tr, k, Run(Boot(board), tr).port.filters[k].mac);
  }
}
