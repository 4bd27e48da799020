/** The hardware layer template (ncsi_hal_template.c): the bounded transmit poll and the receive mailbox. */
module HalTemplate {
  import opened Types
  import opened Protocol
  import opened Firmware

  const TX_TIMEOUT_LOOPS: U32 := 100000

  predicate TxDone(status: U32) { status % 2 == 1 }

  /** The transmit descriptor and doorbell registers. */
  class TxDescriptor {
    var bufferAddr: U32
    var length: U32
    var pollBit: U32

    /** Network_TxFrame. The volatile status register is a stream: read k returns status(k), whatever the hardware makes
        it. At most 100000 reads are made, and the result is true exactly when one of those 100000 has the done bit, the
        very last one included. */
    method TxFrame(frameAddr: U32, frameLen: U32, status: nat -> U32) returns (ok: bool, polls: nat)
      modifies this
      ensures bufferAddr == frameAddr && length == frameLen && pollBit == 1
      ensures 1 <= polls <= 100000
      ensures ok <==> exists k :: 0 <= k < 100000 && status(k) % 2 == 1
      ensures ok <==> status(polls - 1) % 2 == 1
      ensures forall k :: 0 <= k < polls - 1 ==> status(k) % 2 == 0
    {
      bufferAddr := frameAddr;
      length := frameLen;
      pollBit := 1;
      var timeout: U32 := TX_TIMEOUT_LOOPS;
      polls := 0;
      while true
        invariant polls + timeout == TX_TIMEOUT_LOOPS && timeout >= 1
        invariant forall k :: 0 <= k < polls ==> !TxDone(status(k))
        decreases timeout
      {
        var s := status(polls);
        polls := polls + 1;
        if TxDone(s) {
          break;
        }
        timeout := timeout - 1;
        if timeout == 0 {
          break;
        }
      }
      ok := timeout != 0;
    }
  }

  /** The receive globals: the interrupt handler fills them, the main loop empties them. */
  class RxMailbox {
    var rxPending: bool
    var rxFrame: array?<Byte>
    var rxFrameLen: nat
    const responder: Responder

    constructor (responder: Responder)
      ensures this.responder == responder && !rxPending && rxFrame == null
    {
      this.responder := responder;
      rxPending, rxFrame, rxFrameLen := false, null, 0;
    }

    /** A pending frame lies in a receive buffer of its own. */
    ghost predicate Filled()
      reads this, rxFrame
    {
      rxPending ==> rxFrame != null && rxFrame !in responder.Repr() && rxFrame as object != this
                    && ValidEvent(Rx(rxFrame[..], rxFrameLen))
    }

    /** NCSI_RxOk_ISR: only descriptor bookkeeping. */
    method RxOkIsr(bufferAddr: array<Byte>, length: nat)
      requires bufferAddr !in responder.Repr() && ValidEvent(Rx(bufferAddr[..], length))
      modifies this
      ensures rxPending && rxFrame == bufferAddr && rxFrameLen == length && Filled()
    {
      rxFrame := bufferAddr;
      rxFrameLen := length;
      rxPending := true;
    }

    /** NCSI_PollRx without interruption: a pending frame is handed to the protocol engine once, with the pointer and
        length the interrupt left; without one nothing happens. */
    method PollRx(hal: Hal)
      requires Filled() && responder.Consistent() && this !in responder.Repr()
      modifies this`rxPending, responder.Repr()
      ensures responder.Consistent() && !rxPending
      ensures responder.trace ==
              if old(rxPending) then old(responder.trace) + [RawInput(Rx(old(rxFrame[..]), rxFrameLen), hal)]
              else old(responder.trace)
    {
      if !rxPending {
        return;
      }
      rxPending := false;
      responder.OnRxFrame(rxFrame, rxFrameLen, hal);
    }
  }
}
