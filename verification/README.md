# NC-SI responder: model and proofs

The repository is the device side of NC-SI (DMTF DSP0222 v1.2.1): firmware for a network controller that receives
control frames from a management controller (BMC), answers them out of four static buffers, keeps the state of one
channel, and lets other traffic pass through. This project models that firmware in Dafny and proves what it keeps over
whole runs. Check it with `dafny verify dfyconfig.toml`.

## How it is built

- `Types.dfy`, `Checksum.dfy`, `Wire.dfy`: machine integers, big-endian fields, the packet checksum, packet layouts and
  buffer initialisers (`types.h`, `Ethernet.h`).
- `Protocol.dfy`: the responder as a function of state, input and hardware answers. An input is a received frame, a
  poll of the network side, a reload, a checksum toggle, or `NCSI_init`. What the hardware answers (transmit success,
  PHY register, link state, PHY address, packet accepted) is an arbitrary part of every input; what the responder asks
  of the hardware is recorded as a list of calls.
- `Manual.dfy`: the interface as the wire shows it, in raw bytes and numbers only: which frames are answered, what each
  command byte does to the channel record, which hardware calls it makes, and every byte of every answer.
  `Compliance.dfy` and `Answers.dfy` prove that the function above behaves like this on every input, and the whole-run
  theorems are stated in these terms.
- `Firmware.dfy`: the C code's own shape, classes whose fields, filter array and buffers are updated in place. Each
  method is proved to compute the function above. A ghost trace makes the whole state, and all calls made, a fold of
  the inputs received (`Responder.Consistent`).
- `Steps.dfy`, `Runs.dfy`, `Responses.dfy`, `ChecksumToggle.dfy`, `Statistics.dfy`, `Passthrough.dfy`,
  `FreshStart.dfy`, `Bus.dfy`, `PayloadReads.dfy`: the whole-run theorems. `Guarantees.dfy` reads them off the live
  object; `Witnesses.dfy` holds concrete runs in which a plausible promise fails.
- `WordSwap.dfy`, `HalTemplate.dfy`, `Mailbox.dfy`, `Delivery.dfy`: the word-swapping transmit path, the bounded
  transmit poll, the receive mailbox under interruption, and the mailbox together with the responder behind it.

"Since" is the one notion of history used: a fact such as "Enable Channel Network TX is in force" holds when an input
that begins it is more recent than every input that ends it (`Runs.Since`). `Establishes` and `Overrules` are written
from command bytes and payload bytes, not from the handlers. The dispatch table is a function whose precondition is the
array's size, so every lookup is proved to be inside it.

Modelling choices. Shifts and masks are written as the arithmetic they compute. Counters are 32-bit and wrap. The
compile-time identity values are a parameter (`Board`). Straps give a package in 0..7 and a channel other than 0x1F.
The port is registered before any traffic.

Received bytes. A reception is a buffer and the number of bytes of it that were received; the rest of the buffer holds
whatever it held. `ncsi_on_rx_frame` checks that 30 bytes arrived and no more, and handlers read their payload from the
buffer all the same, so a truncated command acts on leftover bytes. The model does the same, proves exactly when it
happens (`PayloadReads.ReceivedBytesExactly`) and shows a run in which leftovers become a source filter
(`Witnesses.StaleBytesBecomeFilter`). `Protocol.Readable` is the precondition of handling a frame in a given state: a
handler that is run finds its payload inside the buffer, and a frame that runs none needs its header only. Inputs of runs
satisfy it in every state (`Protocol.AlwaysReadable`, exact by `PayloadReads.AlwaysReadableExactly`), as any frame, of
any length, in a buffer of 38 bytes or more does.

Where the code and its documentation differ, the code is followed: Set VLAN Filter stores nothing although README.md
line 266 says its value is recorded (`Answers.VlanFilterStoresNothing`); switching checksums off leaves the old checksum
bytes in the buffers (`Witnesses.StaleChecksum`); a frame for channel 0x1F is answered by every device of the package
(`Bus.PackageAnswers`); Reset Channel clears the tracked filters without telling the hardware
(`Witnesses.ResetLeavesHardwareFilter`); `stat_net_rx` never moves (`Runs.AlwaysSafe`).

## Model

| member | source | states |
|---|---|---|
| FreshStart.ResetIsFreshStart | src/ncsi/ncsi.c:825-850 | after any history, once NCSI_init or an accepted Reset Channel has happened, every further sequence of inputs and hardware answers draws exactly the transmissions, hardware calls and pass-through decisions of a device in its power-up state except for the same straps, cached link status, checksum switch and leftover checksum bytes |
| FreshStart.StepAlike | src/ncsi/ncsi.c:729-820 | the bisimulation step: devices that agree on readiness, enables, enabled filters, link cache, checksum switch and unstamped buffer bytes do the same on every input and stay alike; counters, AEN, link, VLAN and broadcast settings, disabled slots and `selected` are unobservable |
| FreshStart.PowerUp | src/ncsi/ncsi.c:305-314 | the state at power-up, field by field: identity 0/0, nothing ready, enabled or filtered, all counters 0, checksum fields 0 |
| Compliance.StepRecord | src/ncsi/ncsi.c:352-850 | in every state, what every input does to the channel record, from the bytes of the frame: each accepted command 0x00 to 0x16 by its number and payload, NCSI_init a reset, everything else nothing |
| Passthrough.PassThroughHistory | src/ncsi/ncsi.c:996-1050 | over every run a frame without EtherType 0x88F8 is handed to the transmitter once and unmodified iff an accepted command 0x06 is more recent than any 0x07 and any reset, and some slot's latest programming since the last reset is an enabled filter of type 0 for its source; otherwise no hardware call is made; the configuration never changes |
| Passthrough.SourceHistory | src/ncsi/ncsi.c:1013-1034 | some slot is an enabled filter of address type 0 for the source iff the run's history configures the source |
| Passthrough.SlotNumbers | src/ncsi/ncsi.c:619-666 | for every accepted command 0x0E: byte 36 picks the slot (0 and 1 the first, n up to 8 the n-th, larger ones none), bit 7 of byte 37 enables it, the low three bits are its type, bytes 30 to 35 its address, and no other slot changes |
| Passthrough.FilterTablesAgree | src/ncsi/ncsi.c:619-666 | over every run a tracked slot is enabled with address m iff the hardware slot was last programmed as enabled with m and no reset came later |
| Passthrough.TrackedImpliesProgrammed | src/ncsi/ncsi.c:834-837 | in every reachable state each enabled tracked slot is programmed in the hardware with the same six bytes |
| Passthrough.UnpackPack | src/ncsi/ncsi_hal_template.c:58-72 | unpacking the high-16/low-32 words of an address, as Network_SetMACAddr does, gives the address back |
| Passthrough.PackUnpack | src/ncsi/ncsi.c:642-644 | packing an unpacked pair of words gives the words back, so the packing is a bijection |
| Witnesses.ResetLeavesHardwareFilter | src/ncsi/ncsi.c:834-837 | a run of Clear Initial State, Set MAC Address and Reset Channel after which, for every address, the tracked slot is off and the hardware slot still passes the address |
| Bus.Projection | src/ncsi/ncsi.c:729-752 | with any number of responders on one bus, each with its own buffer contents behind the received bytes, and any interleaving of broadcast frames and local inputs, each responder's final state and hardware calls are those of its own frames and local inputs alone |
| Bus.WhoAnswers | src/ncsi/ncsi.c:737-752 | after any bus run with distinct identities a frame for one channel is answered once by its owner and by nobody else; a frame for channel 31 is answered once by every responder of the package |
| Bus.OneAnswerIffOwnerPresent | src/ncsi/ncsi.c:744-752 | the number of answers on the bus to a frame for one channel is 1 if its owner is present and 0 otherwise |
| Bus.PackageAnswers | src/ncsi/ncsi.c:744-752 | the number of answers on the bus to a frame for channel 0x1F is the number of responders of the package |
| Answers.ExactlyOneAnswer | src/ncsi/ncsi.c:729-953 | in every reachable state a control frame for this package and channel (or channel 31) makes exactly the hardware calls its command orders and then one transmission, whose bytes are all given: broadcast addresses, instance, type with bit 7, channel, length, codes by the priority table, the body of the command, zero padding to 60 bytes; only the checksum field is left to the theorems below; any other control frame draws no call and changes nothing |
| Answers.AnswerDecodes | src/ncsi/include/Ethernet.h:257-327 | the same answer as a receiver decodes it: instance, type, channel, codes and the body by command: version and board identity for 0x15, capabilities for 0x16, link status for 0x0A, nothing otherwise |
| Answers.LocalCalls | src/ncsi/ncsi.c:852-983 | the hardware calls of poll, reload, checksum toggle and NCSI_init |
| Answers.Settings | src/ncsi/ncsi.c:755-812 | identity changes through NCSI_init only, the checksum switch through its toggle only, and the package is selected by every accepted command but 0x02 and by commands refused for want of initialisation |
| Responses.VerdictHolds | src/ncsi/ncsi.c:697-820 | response and reason codes follow one priority table of numbers: unknown command 3/0x7FFF, wrong length 1/5, channel command to channel 31 1/2, not initialised 1/1, unimplemented 3/0x7FFF, invalid VLAN 1/0x0B07, complete 0/0 |
| Responses.DecodeSent | src/ncsi/include/Ethernet.h:257-327 | layout round trip: for all four layouts the bytes sent decode to the answer that was laid out, the checksum lies at 30 + PayloadLength, and everything after it is zero |
| Responses.BufferHistory | src/ncsi/ncsi.c:153-304 | in every run each buffer keeps its static bytes, and its checksum field is the compensation of the latest answer sent from it with checksums on, or zero if there was none |
| Responses.AnswersVerify | src/ncsi/ncsi.c:157-168 | with checksums on every answer verifies at the receiver and never carries the zero sentinel; with checksums off it carries the buffer's old field |
| ChecksumToggle.AcceptableExactly | src/ncsi/ncsi.c:141-168 | in every run an answer verifies or carries the zero sentinel iff checksums are on, or its buffer was never sent with checksums on, or instance, type, channel, codes and link status of the request add up to the same as for the answer sealed last in that buffer |
| ChecksumToggle.StaleField | src/ncsi/ncsi.c:153-168 | with checksums off, an answer from a buffer sealed earlier carries a nonzero field, which is right iff those sums agree |
| ChecksumToggle.PacketSum | src/ncsi/include/Ethernet.h:257-327 | the word sum of every response is a constant of its layout plus the sum of the answer's fields |
| Witnesses.StaleChecksum | src/ncsi/ncsi.c:153-168 | after one command answered with checksums on, the next answer without checksums carries a nonzero field that verifies only if the instance is repeated |
| Responses.ZeroWhenNeverEnabled | src/ncsi/ncsi.c:141-168 | if checksums are never switched on, every answer carries the zero field |
| Responses.OnceSealedNeverZero | src/ncsi/ncsi.c:153-168 | a buffer's field is zero iff it was never sent with checksums on, so switching them off does not clear it |
| Runs.FactHistory | src/ncsi/ncsi.c:352-695 | readiness (0x00), channel enable (0x03, 0x04), TX enable (0x06, 0x07), VLAN (0x0C, 0x0D), broadcast settings (0x10, 0x11), each filter slot (0x0E), AEN settings (0x08), link settings (0x09) and the cached link (0x0A) hold after a run iff the accepted command that begins them, by its payload bytes, is more recent than all that end them, or they held at the start and nothing ended them |
| Answers.VlanFilterStoresNothing | src/ncsi/ncsi.c:595-617 | in every state an accepted command 0x0B leaves the whole configuration as it is and asks the hardware for nothing but the transmission of its answer |
| Runs.InitialState | src/ncsi/ncsi.c:799-812 | `ready` iff an accepted Clear Initial State is more recent than any reset; when not ready everything is off, and the next input changes no configuration except that an accepted Clear Initial State sets `ready` |
| Runs.AlwaysSafe | src/ncsi/ncsi.c:825-850 | in every reachable state: not ready implies everything off, cached link_up equals autoneg_hcd, autoneg_complete is never set, stat_net_rx is 0 |
| Answers.LinkStatusHistory | src/ncsi/ncsi.c:472-531 | every accepted command 0x0A reads PHY register 1 and its transmitted answer decodes to 0x23 or 0x20 according to bit 2 of the latest successful read since power-up, through failed reads and resets; all hardware calls are given: the driver is asked iff the link is reported down, and the link kicked iff the driver agrees |
| Runs.PollHistory | src/ncsi/ncsi.c:973-994 | a poll forwards one network packet iff Enable Channel is more recent than Disable Channel and any reset, and counts a refused one as dropped |
| Statistics.MeterSince | src/ncsi/ncsi.c:825-861 | modulo 2^32, since its latest zeroing each counter counts exactly its own event; Reset Channel's own answer is counted |
| Statistics.MeterFromBoot | src/ncsi/ncsi.c:984-991 | a counter never zeroed, the drop counter always, counts from power-up |
| Statistics.Conservation | src/ncsi/ncsi.c:769-819 | if all sends since the zeroing succeed, transmissions equal receptions plus rejected addressed frames, plus one when the zeroing was a Reset Channel command, modulo 2^32 |
| Checksum.SumRegion | src/ncsi/include/types.h:140-157 | the summing loop returns the 16-bit-word sum modulo 2^32, odd lengths included, and one of its additions wraps iff that sum needs more than 32 bits |
| Checksum.ComputeChecksum | src/ncsi/include/types.h:140-160 | the two's complement of the region's word sum is stored in place and nothing else changes; up to 131074 bytes no addition wraps |
| Checksum.NoWrapExactly | src/ncsi/include/types.h:140-157 | no region of a given length can wrap the 32-bit sum iff the length is at most 131074 bytes |
| Checksum.SealedVerifies | tests/test_ncsi.c:171-207 | region sum plus the stored 32-bit field is 0 modulo 2^32, and only the four field bytes change |
| Checksum.FieldIsForced | tests/test_ncsi.c:192-207 | for a region exactly one field value verifies |
| Checksum.OneWordChangeDetected | tests/test_ncsi.c:192-207 | an intact packet with one 16-bit word replaced verifies iff the word is unchanged |
| Checksum.TwoHalvesReading | tests/test_ncsi.c:180-187 | adding the field as two more 16-bit words gives 0 iff the sum is 0 or exceeds 2^32 - 65536 |
| PayloadReads.ReceivedBytesExactly | src/ncsi/ncsi_hal_template.c:183-196 | the outcome of a reception is independent of what the buffer holds behind the received bytes iff it is no control frame, or runs no handler, or the received bytes cover the payload its handler uses (for Set VLAN Filter also once a nonzero VLAN has arrived) |
| Witnesses.StaleBytesBecomeFilter | src/ncsi/ncsi.c:619-666 | a run in which only the 30 header bytes of Set MAC Address arrive and any six leftover bytes become an enabled source filter |
| PayloadReads.AlwaysReadableExactly | src/ncsi/ncsi.c:755-812 | a buffer is long enough in every state iff it reaches as far as the handler its command and length select reads; 38 bytes always are |
| PayloadReads.OnlyPayloadMatters | src/ncsi/ncsi.c:444-470 | two frames that agree on header and declared payload have the same outcome in every state |
| PayloadReads.RejectionReadsHeaderOnly | src/ncsi/ncsi.c:755-776 | a frame that runs no handler is not read past its header |
| WordSwap.SwapTwice | src/ncsi/ncsi.c:884-900 | swapping words twice restores every packet |
| WordSwap.SwapIsByteReversal | src/ncsi/ncsi.c:884-900 | the four bytes of each full word are reversed, so its value becomes its ncsi_be32toh, and the trailing bytes stay in place |
| WordSwap.SwapInto | src/ncsi/ncsi.c:884-900 | the two copy loops produce the word-swapped packet |
| Mailbox.DeliveryExactly | src/ncsi/ncsi_hal_template.c:240-272 | over every interleaving each received frame has been or will be dispatched once, in order, with its own pointer and length, iff no interrupt overran the mailbox |
| Mailbox.DeliveredInOrder | src/ncsi/ncsi_hal_template.c:240-272 | without an overrun the dispatched frames are the first ones received, at most two are under way, and none if the loop is idle |
| Mailbox.OverrunExactly | src/ncsi/ncsi_hal_template.c:232-252 | an interrupt keeps that promise iff no frame is pending and it changes nothing the main loop has still to load: pointer or length after the flag was cleared, length after the pointer was loaded |
| Mailbox.OwnershipPreventsOverrun | src/ncsi/ncsi_hal_template.c:258-272 | if the device interrupts only while it owns the descriptor, released at the end of the poll, no overrun happens and at most one frame is under way |
| Mailbox.NextPollDispatches | src/ncsi/ncsi_hal_template.c:258-272 | under that rule, once a further poll completes every frame received before has been dispatched |
| Delivery.FramesReachResponder | src/ncsi/ncsi_hal_template.c:183-272 | mailbox, buffer memory and responder together: under the ownership rule the responder has handled the received frames once each, in order, with the bytes they arrived with, and its state is the run over them; at most the latest is missing, none if the loop is idle |
| Delivery.NextPollHandles | src/ncsi/ncsi_hal_template.c:258-272 | once a further poll completes every frame received before has been handled by the responder |
| Mailbox.TornFrame | src/ncsi/ncsi_hal_template.c:240-266 | without the rule a frame's pointer can be dispatched with another frame's length |
| HalTemplate.TxDescriptor.TxFrame | src/ncsi/ncsi_hal_template.c:113-149 | the poll makes at most 100000 status reads and returns true iff bit 0 of one of those 100000 is set, the last one included |
| HalTemplate.RxMailbox.PollRx | src/ncsi/ncsi_hal_template.c:258-272 | a pending frame reaches the protocol engine once with the pointer and length the interrupt left |
| Firmware.Responder.HandleNcsiFrame | src/ncsi/ncsi.c:729-820 | the dispatch code computes the specified new state and hardware calls |
| Firmware.Responder.ReceiveFrame | src/ncsi/ncsi_hal_template.c:183-210 | reception splits control frames from pass-through and computes the specified step |
| Firmware.Responder.FindSource | src/ncsi/ncsi.c:1013-1034 | the nested search loops return true iff some slot is an enabled unicast filter for the source |
| Firmware.Responder.TxPacketInternal | src/ncsi/ncsi.c:863-903 | plain packets go out as they are, swapped ones up to 256 bytes word-swapped, longer ones are refused with no hardware call |
| Firmware.NetworkPort.Reset | src/ncsi/ncsi.c:825-841 | the reset loop and assignments leave exactly the reset channel record |
| Guarantees.LiveState | src/ncsi/include/Network.h:73-103 | the live object's flags and buffers are what its trace says they must be |
| Guarantees.LiveFilters | src/ncsi/ncsi.c:644-658 | each enabled slot of the live filter array is programmed, by the recorded hardware calls, with the same address |
| Guarantees.LiveCounters | src/ncsi/ncsi.c:905-916 | the live object's control counters are the counted events modulo 2^32 |

## Left out

- GPIO reads, MAC, PHY and MDIO register access, descriptor addresses: placeholders in the source; hardware calls are recorded and their results arbitrary.
- Logging, build files and the usage example: no protocol behaviour.
- VLAN and broadcast enforcement, the full link-status encoding, Get Parameters, statistics, flow control and OEM commands: the code does not implement them beyond their "unsupported" answer.
- Validation of incoming checksums: the code never checks requests.
- A null port: `NCSI_usePort` is taken to have run first, so the branches for a missing port are not modelled.
- Firmware.Responder.TxBePacket: not an input of the runs, because nothing in the repository calls it.
- Mailbox.OwnershipPreventsOverrun: the descriptor-ownership rule is a stated assumption, because the source leaves it as a TODO. The same holds for Delivery.FramesReachResponder, where the device also writes receive buffers only while it owns the descriptor.
- Receive buffers too short for the payload their command selects: the code would read outside them; runs take buffers that are long enough, while the frame in them may be of any length.
- Bus.Projection: covers control frames and local inputs; pass-through frames are excluded because sections 6.1.11 and 6.1.12 of DSP0222 concern every responder at once, and NCSI_init because it re-reads the identity the statement is about.
- Alias between a received frame and the firmware's own buffers: receive buffers are taken to be separate memory.
- The byte-copy loop for the six address bytes in Set MAC Address is one assignment of a six-byte value.
