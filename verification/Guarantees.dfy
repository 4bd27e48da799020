/** The whole-run theorems, read off the live firmware object. */
module Guarantees {
  import opened Types
  import opened Wire
  import opened Protocol
  import opened Runs
  import opened Responses
  import opened Statistics
  import opened Passthrough
  import opened Firmware

  lemma FactFromBoot(f: Fact, board: Board, tr: seq<Input>)
    requires !Holds(f, Boot(board))
    ensures Holds(f, Run(Boot(board), tr)) <==> Since(f, Boot(board), tr)
  {
    FactHistory(f, Boot(board), tr);
  }

  /** At any moment the fields of the channel record are what the received inputs say they must be, and the static
      buffers carry their own headers and the checksum of their latest sealed answer. */
  lemma {:induction false} LiveState(r: Responder, k: Kind)
    requires r.Consistent()
    ensures var start := Boot(r.board);
            && (r.port.ready <==> Since(Ready, start, r.trace))
            && (r.port.enabled <==> Since(Enabled, start, r.trace))
            && (r.port.txPassthrough <==> Since(TxEnabled, start, r.trace))
            && (r.port.vlanEnabled <==> Since(VlanOn, start, r.trace))
            && (r.port.link.up <==> Since(LinkUp, start, r.trace))
            && Safe(r.port.State())
            && Intact(r.board, k, r.Abs().buffers.Get(k))
            && (Field(k, r.Abs().buffers.Get(k)) == 0 <==> NeverSealed(k, start, r.trace))
  {
    FactFromBoot(Ready, r.board, r.trace);
    FactFromBoot(Enabled, r.board, r.trace);
    FactFromBoot(TxEnabled, r.board, r.trace);
    FactFromBoot(VlanOn, r.board, r.trace);
    FactFromBoot(LinkUp, r.board, r.trace);
    AlwaysSafe(r.board, r.trace);
    BufferHistory(r.board, r.trace, k);
    OnceSealedNeverZero(r.board, r.trace, k);
  }

  /** The tracked filter slots agree with the filters the recorded hardware calls have programmed. */
  lemma LiveFilters(r: Responder, k: nat)
    requires r.Consistent() && k < 8 && r.port.macFilters[k].enabled
    ensures HalSlot(r.calls, k) == Some(HalFilter(r.port.macFilters[k].mac, true))
  {
    assert r.port.State().filters[k] == r.port.macFilters[k];
    TrackedImpliesProgrammed(r.board, r.trace, k);
  }

  /** The control counters of the live object are the events since their latest zeroing, modulo 2^32. */
  lemma {:induction false} LiveCounters(r: Responder, z: nat)
    requires r.Consistent() && LatestZeroing(NcsiTx, Boot(r.board), r.trace, z)
    ensures r.port.ncsiRx == CountSince(NcsiRx, Boot(r.board), r.trace, z) % 0x1_0000_0000
    ensures r.port.ncsiTx == CountSince(NcsiTx, Boot(r.board), r.trace, z) % 0x1_0000_0000
  {
    SameZeroings(Boot(r.board), r.trace, z);
    MeterSince(NcsiTx, Boot(r.board), r.trace, z);
    MeterSince(NcsiRx, Boot(r.board), r.trace, z);
  }
}
