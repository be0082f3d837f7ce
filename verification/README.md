# cTCP in Dafny

cTCP is a stop-and-wait transport: each host keeps at most one unacknowledged segment, retransmits it a
bounded number of times, and tears a connection down with FINs and a linger period. Segments carry an
Internet checksum and travel inside TCP/IP packets. This project models those parts and proves what they
guarantee, and exactly when.

## How it is built

The code that updates state in place is modelled by classes whose methods update the same fields:

- `Segments.CtcpSegment` is the `ctcp_segment_t` struct (a little-endian host; `len` is followed by two zero
  bytes), with the in-place byte swaps, the validity test and `flipbit`.
- `Connections.Conn` is `conn_t`: the chunk queue with the address of its last link, the EOF and error flags
  and the sequence numbers. `Datagrams.Datagram` is a packet buffer.
- `CtcpStates.CtcpState` is `ctcp_state`; `LinkedLists` and `StateLists` are the two pointer lists.

Each method is proved against a function on values: `Checksum.Cksum`, `Segments.Encode` and `Decode`,
`OutputQueue.Put` and `Drained`, `Conversion.ToPacket` and `ToSegment`, and `HostModel.Step`, which says what
one event does to one host. System calls are parameters: what `read`, `write` and `sendto` return, and `rand`.
The theorems are about these functions:

- `Lives`, `Closings`, `Retransmission`, `Lingers`: one host, any events, any segments received. `Clocks` is the
  arithmetic of their 16-bit clocks.
- `Worlds`, `Delivery`, `Completeness`: two hosts and everything they ever put on the wire. A host may receive any
  segment its peer ever sent, any number of times, in any order, or never. Both hosts may send.
- `OneWay`: one direction of data, with an ACK channel that loses and delays but does not duplicate.
- `Teardown`, `FinAcks`, `Fifo`: closing, over any channel and over channels that keep their order.
- `Counterexamples`: legal runs that show what fails without the conditions of these theorems.
- `Conversion`, `EndToEnd`: why a corrupted segment counts as a lost one.

Output is what `conn_output` has accepted; the theorems say apart how much of it is written.
The theorems over two hosts hold while neither host has used 2^32 sequence numbers (`Worlds.Unwrapped`).
All 16-bit and 32-bit fields reduce modulo their width.

## Where the code and its documentation disagree

The model follows the code.

- `ctcp.h:179-180` asks that a segment is resent only `rt_timeout` after it was last sent. The clock is never
  reset, so a segment goes out on every tick at which its 16-bit clock shows `rt_timeout` (`ctcp.c:224-227`):
  `ResentExactlyWhenDue`; while the clock fits its 16 bits (`rt_timeout + 5 * timer` below 65536) that is every tick
  after the first resend: `RetransmissionBudget`. The promise holds in every run exactly when no two of the five due
  ticks are closer than `rt_timeout`; while the clock fits, exactly when `rt_timeout` is at most `timer`
  (`SpacedIff`), which the shipped 200 and 40 are not (`ShippedIntervals`).
- `ctcp.h:182-184` asks for teardown after five retransmissions. The segment is dropped and the connection goes on
  (`ctcp.c:228-230`): a tick ends a connection exactly when it lingers and its time is up (`TickDestroysIff`), and
  after a give-up the next chunk is accepted in place of the lost one (`GiveUpSkipsData`).
- `ctcp.h:98-108` lists what must hold before `ctcp_destroy`. The code makes sure that a FIN went out and one came in
  (`DestroyedOnlyWhenBothClosed`), and of the rest only this:
  - The end of the input: it was read unless the host only answered its peer's FIN (`InputEndedIff`).
  - The FIN acknowledged: in `WAIT_LAST_ACK` any segment with an ACK flag will do (`ctcp.c:401-406`), and its number
    tells whether it was the right one (`LastAckIff`, `OldSegmentPassesForLastAck`); elsewhere any FIN will do
    (`ctcp.c:375-383`), and its acknowledgment number tells (`LastFinIff`, `CrossingFinDestroys`).
  - All output written: only if nothing is queued at that moment, because the queue is freed with the connection
    (`AllWrittenIff`, `WrittenInTheEnd`, `QueuedOutputIsDropped`).
- Delivery is not reliable over every channel that `conn_send` can produce. A segment ahead of `ackno` is
  accepted (`ctcp.c:321`), and a saved segment is released without a look at the acknowledgment number
  (`ctcp.c:347-352`, `ctcp.c:446`). `CompleteIff` says exactly which chunks are missing; `ReliablePrefix` gives a
  setting in which nothing ever is.
- A linger should end 50 times `rt_timeout` after the last FIN. `tim` has 16 bits (`ctcp.c:211-212`): the linger
  ends on that tick exactly when the clock has not wrapped by then (`LingerBound`), and it ends at all exactly when
  50 times `rt_timeout` is at most 65536 minus the greatest common divisor of `timer` and 65536 (`LingerEndsIff`).

## Model

| member | source | states |
|---|---|---|
| Checksum.SumWords | ctcp_utils.c:5-10 | The word loop computes the sum of the big-endian words, odd tail in the high half; the 32-bit accumulator never wraps for a 16-bit length. |
| Checksum.WordSumBound | ctcp_utils.c:5-10 | The word sum of any buffer shorter than 2^16 bytes is below 2^32. |
| Checksum.FoldCarries | ctcp_utils.c:12-14 | The fold loop ends after at most two rounds with a 16-bit value of the same residue modulo 65535, zero only for zero. |
| Checksum.FoldKeepsResidue | ctcp_utils.c:12-14 | One round keeps the residue and zeroness; two rounds reach 16 bits from any 32-bit sum. |
| Checksum.ComputeCksum | ctcp_utils.c:3-17 | Both loops together give the negated residue modulo 65535 of the word sum, byte-swapped. |
| Checksum.CksumEqualIff | ctcp_utils.c:15-16 | Two buffers have the same checksum exactly when their word sums agree modulo 65535; a checksum is never 0. |
| Checksum.StoredCksumIff | ctcp.c:148-151 | A word stored in a zeroed even position is the checksum exactly when it is not 0 and the whole buffer then sums to 0 modulo 65535. |
| Checksum.OneBitErrorChangesCksum | ctcp_sys_internal.h:246-250 | Flipping any one bit of any buffer changes its checksum. |
| Checksum.FlipByteFlipsOneBit | ctcp_sys_internal.h:246-250 | `flipbit` complements binary digit `bit % 8` of a byte, counted from the lowest, and no other. |
| Segments.CtcpSegment.constructor | ctcp.c:141 | A new segment is all zeros. |
| Segments.CtcpSegment.Hton | ctcp.c:112-119 | Swaps the five header fields in place, not the checksum. |
| Segments.CtcpSegment.Ntoh | ctcp.c:120-127 | Swaps the five header fields in place, not the checksum. |
| Segments.CtcpSegment.IsValid | ctcp.c:173-191 | Accepts exactly an untruncated segment whose checksum matches, and clears the field unless truncated. |
| Segments.CtcpSegment.Flip | ctcp_sys_internal.h:246-250 | Complements the chosen bit of the struct in memory. |
| Segments.BuildSegment | ctcp.c:140-151 | The struct built field by field, swapped and summed is the encoding of the segment. |
| Segments.DecodeEncode | ctcp.c:142-151 | Reading back a built segment gives the segment, and its length field is true. |
| Segments.EncodeAcceptedIff | ctcp.c:173-191 | A built segment is accepted exactly when at least its length arrived, modulo 2^16. |
| Segments.ImageHoldsFields | ctcp_sys.h:45-55 | The bytes under the checksum hold every field at its offset in the struct, two zero bytes after the length, and the data. |
| Segments.EncodeOnTheWire | ctcp.c:142-151 | A sent segment in network order: seqno, ackno, length, the flags in the first byte of theirs, window 1440, data. |
| Segments.FlagsRead | ctcp.c:325-363 | FIN and ACK are read from bits 0 and 4 of that byte, whatever other flags are set. |
| Segments.PaddingIgnored | ctcp.c:176-185 | Padding after a segment changes neither the test nor what is read. |
| Segments.AcceptsIff | ctcp.c:182-190 | A whole segment is accepted exactly when its checksum field is not 0 and its words sum to 0 modulo 65535. |
| Segments.FlipBitFlipsImage | ctcp_sys_internal.h:246-250 | Flipping a bit of a field is flipping that bit of the bytes in memory. |
| Segments.FlipBitRejected | ctcp.c:182-189 | An accepted segment with one bit flipped in any field but the length is refused. |
| OutputQueue.PutAllOrNothing | ctcp_sys_internal.c:911-979 | `conn_output` takes a whole buffer or none of it, and returns 0 or -1 only for EOF, a full queue or a write error. |
| OutputQueue.PutIs | ctcp_sys_internal.c:911-979 | When `conn_output` takes a buffer, what it returns, both flags, how many bytes it writes at once, and that the rest is queued last. |
| OutputQueue.DrainIs | ctcp_sys_internal.c:638-666 | `conn_drain` writes whole chunks as long as `write` takes them, then the part that the next `write` takes, and stops; a failed `write`, or an EOF with nothing left, sets the error flag; after an error it does nothing. |
| OutputQueue.DrainEmpties | ctcp_sys_internal.c:638-660 | If `write` takes every chunk, the queue is empty and everything is written. |
| OutputQueue.DrainConserves | ctcp_sys_internal.c:638-660 | No byte is lost, added or moved by draining, whatever `write` returns. |
| OutputQueue.RunConserves | ctcp_sys_internal.c:623-661 | Over any run, bytes written followed by bytes queued are the accepted buffers in order. |
| OutputQueue.GuardedRunIsBounded | ctcp_sys_internal.c:607-616 | Under the space test of `ctcp_output` at most 8192 bytes are pending and the space reported is exactly the rest. |
| Connections.Conn.constructor | ctcp_sys_internal.h:317-340 | A new connection has an empty queue, its drawn initial number as next number, and nothing of its peer yet. |
| Connections.Conn.Send | ctcp_sys_internal.c:788-900 | A successful send puts exactly the segment on the wire, a failed one nothing. |
| Connections.Conn.Input | ctcp_sys_internal.c:718-760 | End of file is returned for ever after it was read once. |
| Connections.Conn.Bufspace | ctcp_sys_internal.c:607-616 | The loop over the chunks computes 8192 minus the pending bytes, or 0. |
| Connections.Conn.Append | ctcp_sys_internal.c:958-969 | A chunk is linked where the tail points, and the tail then addresses the new last link. |
| Connections.Conn.WriteNow | ctcp_sys_internal.c:935-956 | The immediate write keeps what was not taken for the queue, and records an error other than EAGAIN. |
| Connections.Conn.WriteHead | ctcp_sys_internal.c:638-660 | A write advances the first chunk, or unlinks it and resets the tail of an empty queue. |
| Connections.Conn.Output | ctcp_sys_internal.c:911-979 | The pointer queue refines the queue function for every outcome of `write`. |
| Connections.Conn.Drain | ctcp_sys_internal.c:623-666 | The drain loop refines its function for every series of outcomes of `write`, and keeps the links and the tail right. |
| CtcpStates.CtcpState.constructor | ctcp.c:242-262 | The initial state. |
| CtcpStates.CtcpState.SegmentSend | ctcp.c:137-171 | Sends the encoding of the segment with the current numbers, advances `seqno`, saves data and FIN segments; nothing changes when the send fails. |
| CtcpStates.CtcpState.DestroyAckedSegment | ctcp.c:193-200 | Releases the saved segment and changes nothing else. |
| CtcpStates.CtcpState.Destroy | ctcp.c:265-278 | Marks the connection removed and changes nothing else. |
| CtcpStates.CtcpState.Read | ctcp.c:280-304 | Nothing while a segment is saved; a FIN and `TEAR_DOWN` at end of input; otherwise a segment with what was read. |
| CtcpStates.CtcpState.RetransmissionHandler | ctcp.c:202-233 | The linger and retransmission clocks, the resend, and the give-up after five. |
| CtcpStates.CtcpState.Output | ctcp.c:415-450 | Nothing without room; otherwise the data is handed over whole and acknowledged, or the host destroyed on a write error. |
| CtcpStates.CtcpState.ReceiveFin | ctcp.c:325-344 | EOF, an ACK, a FIN, then `WAIT_LAST_ACK`. |
| CtcpStates.CtcpState.ReceiveInDataTransfer | ctcp.c:319-360 | The branches of data transfer. |
| CtcpStates.CtcpState.Dispatch | ctcp.c:318-411 | The branches of all states on a valid segment. |
| CtcpStates.CtcpState.Receive | ctcp.c:306-413 | On the bytes received: an invalid segment changes nothing, a valid one is an event of the host function, whose runs the theorems are about. |
| CtcpStates.CtcpState.Drain | ctcp_sys_internal.c:623-666 | Draining touches nothing of the state but the queue. |
| Conversion.RoundTripIff | ctcp_sys_internal.c:326-409 | Between mirrored ends a segment comes back identical exactly when its length field is true and its flags fit the low byte. |
| Conversion.ValidityCrosses | ctcp_sys_internal.c:348-355 | The checksum is right on arrival exactly when it was right on departure, also where an ACK flag is added. |
| Conversion.SegmentCrosses | ctcp_sys_internal.c:368-409 | A sent segment arrives accepted, with the same numbers, length and data, and its flags but for an added ACK. |
| Conversion.CorruptionCaught | ctcp_sys_internal.c:855-871 | For every sent segment and every bit that may be flipped, what arrives is refused; without the flip it is accepted. |
| Conversion.TcpChecksumIff | ctcp_sys_internal.c:396-407 | A TCP receiver finds the packet's checksum right exactly when the segment's own checksum is right. |
| Conversion.IpHeaderVerifies | ctcp_sys_internal.h:217-238 | The IP header made sums to 0 modulo 65535. |
| Conversion.PacketPaddingIgnored | ctcp_sys_internal.c:331-346 | What follows a packet in its buffer makes no difference to the segment. |
| Conversion.IpHeaderOnTheWire | ctcp_sys_internal.h:217-238 | The IP header byte by byte at the offsets of RFC 791. |
| Conversion.PseudoSegmentOnTheWire | ctcp_sys_internal.h:191-206 | The pseudoheader, TCP header and data under the TCP checksum at the offsets of RFC 793. |
| Conversion.PacketOnTheWire | ctcp_sys_internal.c:368-394 | A sent segment as a packet: addresses and ports, seqno and ackno counted from the initial numbers of this side and the other, its flags with the added ACK, window and data. |
| Conversion.ControlOnTheWire | ctcp_sys_internal.c:281-315 | A handshake packet carries its numbers, flags and window, and both its checksums verify. |
| Datagrams.Datagram.constructor | ctcp_sys_internal.h:217-238 | The IP header filled field by field, with its checksum. |
| Datagrams.Datagram.CksumTcp | ctcp_sys_internal.h:191-206 | The checksum over pseudoheader, TCP header and data. |
| Datagrams.ConvertToDatagram | ctcp_sys_internal.c:368-409 | The buffer filled field by field is the packet function of the segment, which is left as it was. |
| Datagrams.ConvertToCtcp | ctcp_sys_internal.c:326-357 | The segment filled field by field is the segment function of the packet. |
| Datagrams.CreateTcpSeg | ctcp_sys_internal.c:281-315 | A handshake packet with the next number, the acknowledgment and a right checksum. |
| Datagrams.TcpNewConnection | ctcp_sys_internal.c:1046-1054 | The server records the client's number and answers with its own. |
| Datagrams.AnswerSynAck | ctcp_sys_internal.c:1016-1021 | The client records the server's number and acknowledges it. |
| Datagrams.Handshake | ctcp_sys_internal.c:988-1024 | For any drawn numbers SYN, SYN-ACK and ACK carry them, the two ends mirror each other afterwards, and the packet of the client's first segment goes on with the numbers of the last ACK. |
| EndToEnd.Cross | ctcp_sys_internal.c:857-883 | A segment through both conversions: accepted exactly when no bit was flipped, and then the segment sent. |
| EndToEnd.SendAndReceive | ctcp_sys_internal.c:1188-1206 | The peer's state moves as on the segment sent, or not at all when a bit was flipped. |
| Outcomes.DataTakenIff | ctcp.c:345-358 | In data transfer current data is taken exactly when it fits into what is left of the 8192 bytes, and then handed over whole, acknowledged up to its end modulo 2^32, and the saved segment released; an earlier error, or a failed `write` on an empty queue, destroys the host instead. |
| Outcomes.OthersInTransfer | ctcp.c:319-352 | In data transfer, with the whole new state: old segments and those with neither flag are ignored, a FIN is answered by an ACK and a FIN, a bare ACK moves `ackno` and releases the saved segment. |
| Outcomes.ReceiveElsewhereExactly | ctcp.c:361-406 | The whole new state and the answer for each segment in `TEAR_DOWN`, `WAIT_LAST_FIN` and `WAIT_LAST_ACK`. |
| Outcomes.ReadIs | ctcp.c:280-304 | The outcomes of `ctcp_read`, with the whole new state of each. |
| Outcomes.TickIs | ctcp.c:202-233 | A tick resends at most the saved segment and touches neither numbers nor output. |
| Outcomes.TickSends | ctcp.c:202-233 | A resend that fails is counted like one that succeeds; a tick that ends the connection sends nothing. |
| Outcomes.DrainEventWrites | ctcp_sys_internal.c:638-666 | Draining at a host writes everything if `write` takes it, and touches nothing else of the state. |
| Lives.DestroyedOnlyWhenBothClosed | ctcp.c:361-406 | In every run with successful sends a host is destroyed only after it sent a FIN and acted on one, or because `conn_output` failed, which is all that destroys a host in data transfer. |
| Lives.OutputEndsWithEof | ctcp.c:325-344 | In every run data transfer is never entered again, and once it is left no data is added to the output. |
| Lives.NoDataAfterEof | ctcp.c:329-343 | In every run EOF is output at most once and no data after it. |
| Lives.BufferBound | ctcp.c:417-441 | In every run at most 8192 bytes are pending at a host, and the space reported is the rest. |
| Closings.AllWrittenIff | ctcp_sys_internal.c:678-684 | In every run a destroyed host writes nothing more, so its output is all written if and only if `conn_bufspace` reported all its space when it was destroyed. |
| Closings.InputEndedIff | ctcp.c:280-293 | In every run with successful sends a destroyed host, failed output apart, has read its input to the end unless it is in `WAIT_LAST_ACK`, and there, when FINs carry no ACK flag, it never has. |
| Retransmission.RetransmissionBudget | ctcp.c:223-232 | First resend on tick ceil(rt_timeout/timer), then on every tick, dropped four ticks later after six sends; the 16-bit clock does not wrap. |
| Retransmission.ResentExactlyWhenDue | ctcp.c:223-232 | For all intervals and in every run a saved segment goes out on each tick at which its 16-bit clock shows `rt_timeout`, and the fifth such tick drops it after six sends. |
| Retransmission.SpacedIff | ctcp.h:179-180 | For all intervals, each resend of every run comes at least `rt_timeout` after the last sending if and only if no two of the five due ticks are closer; `rt_timeout` at most `timer` is enough, and necessary while the clock fits. |
| Retransmission.ResentOnConsecutiveTicks | ctcp.c:224-227 | For any intervals that fit the clock there is a run in which a segment goes out on two ticks in a row. |
| Retransmission.ShippedIntervals | ctcp_sys_internal.h:38-42 | With the shipped 40 and 200 ms it does, and the spacing is not kept. |
| Clocks.TicksToIs | ctcp.c:224-225 | `TicksTo` is the first tick at which a clock shows a limit. |
| Lingers.TickDestroysIff | ctcp.c:202-233 | In every run a tick ends a connection if and only if it lingers and the tick completes its time. |
| Lingers.LingerBound | ctcp.c:209-216 | A lingering host survives every tick before ceil(50*rt_timeout/timer) after the FIN that last restarted its clock, and that tick destroys it if and only if the 16-bit clock has not wrapped by then. |
| Lingers.LingerEndsIff | ctcp.c:211-212 | Left alone, a lingering host is destroyed if and only if 50*rt_timeout is at most 2^16 minus the gcd of `timer` and 2^16, and then within 2^16/gcd ticks. |
| Clocks.GrainIsGcd | ctcp.c:211 | `Grain`, of which the clock only shows multiples, is the greatest common divisor of `timer` and 2^16. |
| Clocks.HighestShown | ctcp.c:211 | The highest value that the 16-bit clock shows is 2^16 minus that gcd, and it shows it within 2^16/gcd ticks. |
| Lingers.LongLingerNeverEnds | ctcp.c:211-212 | Beyond that bound no tick of any run destroys a host. |
| Worlds.SenderStep | ctcp.c:143-169 | Chunks follow each other without overlap, and every segment on the wire is a chunk, a FIN or an ACK below the next number. |
| Worlds.ReceiverStep | ctcp.c:319-356 | A host takes whole chunks of its peer in order, and acknowledges only what was sent. |
| Worlds.InvStep | ctcp.c:280-413 | The invariant of both hosts and all segments in flight is kept by every event. |
| Delivery.InOrderAtMostOnce | ctcp.c:321-356 | Over any channel and in both directions what the output queue accepts is a subsequence of the peer's chunks: whole, in order, each at most once; what is written is a prefix of that. |
| Delivery.AcknowledgesOnlyWhatWasSent | ctcp.c:349-441 | `ackno`, and every acknowledgment number on the wire, lies between 1 and the peer's next number, and every segment ends by its sender's next number. |
| Delivery.AcknoNeverFalls | ctcp.c:321-349 | `ackno` never falls in data transfer. |
| Completeness.TilingStep | ctcp.c:143-171 | Until the peer sends a FIN, a host's chunks use the numbers from 1 without a break, its FINs the numbers after them, and its ACKs stand where chunks begin. |
| Completeness.BookStep | ctcp.c:319-360 | Each event keeps the account of both hosts: below `ackno` the numbers passed over are exactly those of chunks not output. |
| Completeness.CompleteIff | ctcp.c:321-324 | In data transfer a chunk below `ackno` was output if and only if its numbers were not passed over; everything below `ackno` was output if and only if the host never acted on a segment ahead of `ackno`, and otherwise a chunk is missing. |
| Completeness.EofMeansComplete | ctcp.c:283-293 | When EOF is recorded, the peer's input has ended; the output queue has accepted all its data if and only if every number passed over was that of a FIN, and all its data is written if and only if, besides, nothing is queued. |
| OneWay.ReliablePrefix | ctcp.c:280-450 | Before the first give-up what B's output queue has accepted is a prefix of A's input, at most one segment behind, and so is what is written; it is all of it once nothing is saved or A has closed; when EOF is recorded A's input has ended and all of it is accepted, and all of it is written if and only if nothing is queued. |
| OneWay.WrittenInTheEnd | ctcp_sys_internal.c:678-684 | Once B is destroyed with EOF recorded, it has for ever written all of A's input if and only if nothing was queued then. |
| Teardown.LastAckIff | ctcp.c:401-406 | Over any channel and for both hosts, an ACK that reaches `WAIT_LAST_ACK` was first sent after the peer acted on this host's FIN if and only if its number is not below `ackno`. |
| FinAcks.LastFinIff | ctcp.c:361-400 | Over any channel and for both hosts, the FIN that destroys a host in `TEAR_DOWN` or starts the linger in `WAIT_LAST_FIN` was first sent after the peer acted on a FIN of this host if and only if its acknowledgment number is beyond that FIN's number. |
| Fifo.TeardownAgreement | ctcp.c:361-406 | Over channels that keep order, a host destroyed in `WAIT_LAST_ACK` has a peer that acted on its FIN. |
| Counterexamples.DuplicatedAckSkipsData | ctcp.c:347-352 | A duplicated ACK makes the output skip a chunk. |
| Counterexamples.ArrivingDataReleasesChunk | ctcp.c:446 | With data both ways, arriving data releases a chunk that was not delivered. |
| Counterexamples.GiveUpSkipsData | ctcp.c:229-230 | With the shipped intervals, after a give-up the next chunk is accepted in place of the lost one. |
| Counterexamples.OldSegmentPassesForLastAck | ctcp.c:401-406 | An old data segment destroys a host whose FIN was never acted on. |
| Counterexamples.CrossingFinDestroys | ctcp.c:375-383 | When both hosts close at once, the peer's FIN destroys a host whose FIN was not acted on. |
| Counterexamples.QueuedOutputIsDropped | ctcp.c:401-406 | With nothing lost, duplicated or reordered, the last ACK destroys a host with a byte queued, which has not read its own input to the end. |
| LinkedLists.Add | ctcp_linked_list.c:33-53 | Appends a node; null for a missing list or object. |
| LinkedLists.AddFront | ctcp_linked_list.c:55-75 | Prepends a node; null for a missing list or object. |
| LinkedLists.AddAfter | ctcp_linked_list.c:77-95 | Inserts a node after a node of the list; null for a missing argument. |
| LinkedLists.Remove | ctcp_linked_list.c:97-118 | Takes a node of the list out and returns its object. |
| LinkedLists.Find | ctcp_linked_list.c:120-132 | The first node with the object, or null exactly when there is none. |
| LinkedLists.InsertThenRemove | ctcp_linked_list.c:77-118 | Removing what was inserted restores the sequence. |
| LinkedLists.AddAfterAndRemove | ctcp_linked_list.c:77-118 | Inserting a node and removing it restores the list. |
| StateLists.StateList.Init | ctcp.c:242-247 | The new connection comes first, and every `prev` still addresses the link to its node. |
| StateLists.StateList.Destroy | ctcp.c:265-270 | Exactly the given connection leaves the list, and the links stay right. |

## Left out

- Sockets, the poll loop, the reset thread, forked programs, pipes, option parsing, logging and printing: input and output plumbing.
- The forks of `conn_send` (`ctcp_sys_internal.c:799-853`): drop, duplication and delay are steps of the channels; a send that fails puts nothing on the wire.
- The filter for the ACK that ends a handshake (`ctcp_sys_internal.c:1192-1199`) and `recv_filter`: both only drop packets, which every channel may do.
- The callback of `conn_drain` into `ctcp_output` (`ctcp_sys_internal.c:668-670`): it reads a segment that may have been freed; data refused for lack of room is left to retransmission.
- The loop of `ctcp_timer` over several connections (`ctcp.c:452-460`): a tick is one call of `retransmission_handler` for a live connection.
- The list of `conn` objects (`ctcp_sys_internal.c:582-598`, `ctcp_sys_internal.c:686-697`): one connection per host.
- Freeing of memory, and with it `ll_destroy` and `conn_free`: collected memory has no counterpart for them.
- `tear_down_nums` and `segments_send`: written or created, never read by the protocol.
- Sliding windows, line-ending conversion, and the branch of `tcp_handshake` that continues an old connection.
- Liveness: duplicates are not acknowledged again and a lost FIN is not always resent, so delivery and passive close need not happen.
- Connections.Conn.Send: drop, duplication, delay and corruption are left to the channels, because they do not touch the sender.
- Connections.Conn.Input: whether `read` found the end of the input, data or nothing is a parameter, because the file is not modelled.
- Connections.Conn.Drain: without the callback named above.
- CtcpStates.CtcpState.Drain: without the same callback.
- CtcpStates.CtcpState.constructor: the linking into `state_list` is proved in `StateLists.StateList.Init`.
- CtcpStates.CtcpState.Destroy: the unlinking from `state_list` is proved in `StateLists.StateList.Destroy`.
- CtcpStates.CtcpState.Receive: the length field must not exceed the buffer, as for `IsValid`.
- Datagrams.CreateTcpSeg: packets with data are not modelled, because every caller passes none.
- Datagrams.ConvertToCtcp: the length of the IP packet must not exceed the buffer, because bytes beyond what arrived have no defined value.
- Datagrams.Handshake: without the branch that continues an old connection.
- LinkedLists.AddAfter: the position of the node is passed along for the proof, and a node that is not in the list is excluded, as the interface demands.
- LinkedLists.Remove: the same as for `AddAfter`.
- Retransmission.RetransmissionBudget: stated while the 16-bit clock fits, because beyond that the tick numbers depend on where the clock wraps; `ResentExactlyWhenDue` covers all intervals.
- Segments.CtcpSegment.IsValid: the length field must not exceed the buffer, which holds of every segment that `convert_to_ctcp` makes.
- Worlds.InvStep: stated while fewer than 2^32 sequence numbers are used, because `seqno < ackno` is not a comparison modulo 2^32.
