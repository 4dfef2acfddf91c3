# A verified model of the lwIP core of tun2socks

The repository vendors lwIP, a TCP/IP stack in C, and drives it from Go: TCP
connections that arrive at a TUN device are terminated by lwIP and handed to Go
handlers. This project models the parts where correctness is hard to see and
proves what they are for. `dafny verify dfyconfig.toml` checks all of it.

| file | models |
|---|---|
| `SeqNum.dfy` | sequence numbers modulo 2^32 |
| `TcpReceive.dfy`, `TcpIn.dfy` | the receive path of `tcp_in.c` and `tcp.c`: reassembly, out-of-order queue, FIN, receive window |
| `TcpOut.dfy` | the send path of `tcp_out.c` and acknowledgement processing |
| `InetChksum.dfy` | `inet_chksum.c` and the checksum-on-copy of `tcp_out.c` |
| `Pbuf.dfy` | reference-counted packet buffers, `pbuf.c` |
| `Heap.dfy` | the heap branch of `mem.c` |
| `Timeouts.dfy` | the timeout list, `timeouts.c` |
| `TcpTimers.dfy`, `TcpRtt.dfy` | the PCB ticks of `tcp.c`, and the round-trip estimator |
| `TcpConn.dfy` | the Go connection object and its callbacks |
| `Delivery.dfy` | receive path, refused data and Go connection together |

## How it is built

Code that updates fields and lists in place is a class here, its loops are loops
with invariants, and each method is tied to a function on plain values. Those
functions work on unbounded stream positions, times and counts; the classes hold
the 32-, 16- and 8-bit fields of the source, with every wrap-around written out,
and their contracts say that the two agree. What the source promises is then
proved of the functions, over every run.

Linked lists of segments, PCBs and timeouts are sequences. Packet buffers and
heap blocks keep their links: a pool is a map from addresses to buffers with
`next` fields, a heap an array of headers with offsets. A heap header is one
array cell; that the bytes of two headers do not overlap follows from the
distance between blocks.

No lemma relies on automatic induction: recursive proofs make their own calls.

Memory that may run out, an IP layer that may refuse a segment, the clock, the
handlers of timers and callbacks, and the steps of other goroutines are
parameters of the methods: the contracts hold for all of them.

## What is assumed of the surroundings

- All segments of a connection are cut from one stream with the FIN at its end,
  and lie within 2^31 of rcv_nxt; fewer than 2^31 numbers go by between two
  transmissions of the receiver.
- For window accounting the peer stays inside the window where the code does not
  check it; `EnqueueInWindowIff` says exactly where that is.
- The clock does not run backwards, sys_check_timeouts is called often enough, and
  delays are short enough, that what is pending at one time lies within half the
  32-bit range: twice the longest pause and the longest delay within 2^31 - 1 ms.
  Runs as a whole may be longer than that.
- sys_check_timeouts ends: the handlers that are called stop setting timers that are
  due already. A call that has ended has met that condition, so `EndsIff` says no more
  than that it is the only one; what can be told before the call is
  `StandingClockIff`.
- A TCP header has at most 60 bytes, as its length field allows.
- PCBs registered by callbacks during a tick have just been allocated.
- Connection keys are distinct; `OpenKeepsIff` says what a collision does.
- Memory handed out by the heap is not used to forge block headers.

## Where code and promise differ

- Out-of-order segments are not clipped to the window on an empty queue, at its
  head or in its middle (`EnqueueInWindowIff`, `OverrunExample`).
- A FIN on a duplicate of equal length is ignored, and a short segment makes the
  queue forget the tail of its predecessor (`PlaceCovers`, `FinIgnoredExample`,
  `ForgottenExample`).
- mss_local shrinks when a first window below two bytes grows (`MssLocalGrows`),
  and tcp_write then fails its assertion exactly when the last unsent segment is
  longer (`SendPcb.Write`, `ShrinkExample`).
- A timeout while a fast retransmission is queued leaves unsent unsorted
  (`RtoKeepsOrderIff`, `UnsortedExample`), and a write behind it puts data in the
  wrong place of the stream if the segment is not full, is the only unsent one and is
  not the only one unacknowledged (`SendPcb.Write`, `BehindRetransmissionIff`,
  `MisplacedExample`).
- A split that keeps only acknowledged bytes leaves a head of unsent that no
  window admits, and nothing is sent behind it (`SendPcb.SplitUnsent`,
  `BelowAckNeverFits`, `SendPcb.Output`, `StuckExample`).
- A handler that sets a timer without delay at a standing clock keeps
  sys_check_timeouts busy for ever (`EndsIff`, `StandingClockIff`).
- The partial pseudo-header checksum asserts that less than 0x7fff bytes are left
  behind the first pbuf (`SumChainPartial`, `LongTailExample`). TCP asks for a header
  of at most 60 bytes and never comes to that.
- mem_trim asserts that its block is not the last, and works on it all the same
  (`Allocator.Trim`, `TrimOfLastBlock`).
- pbuf_dechain returns a deallocated tail exactly when the pbufs that go with it
  are a multiple of 256
  (`Pool.Dechain`, `DechainLongTail`).
- A connection key drawn twice takes a live connection out of the table
  (`OpenKeepsIff`, `CollisionExample`).

## Model

| member | source | states |
|---|---|---|
| `SeqNum.DiffExact` | lwipcore/core/c/include/lwip/priv/tcp_priv.h:109-117 | the signed difference of two wrapped numbers is the difference of their positions if and only if these lie within half the number space |
| `SeqNum.NearestPosition` | lwipcore/core/c/include/lwip/priv/tcp_priv.h:109-117 | every 32-bit number stands for a position within half the number space of any given one |
| `TcpReceive.ReassemblyCorrect` | lwipcore/core/c/core/tcp_in.c:1389-1640 | over every run of arrivals (lost, repeated, reordered, cut differently, dropped for lack of memory) and queue flushes: the bytes handed up are exactly the stream up to rcv_nxt, the FIN is raised exactly when the whole stream has been handed up, and the queue is sorted, disjoint, above rcv_nxt and cut from the stream |
| `TcpReceive.RunKeepsInv` | lwipcore/core/c/core/tcp_in.c:1389-1807 | the receive invariant over every run, from any state that has it |
| `TcpReceive.ReceiveKeepsInv` | lwipcore/core/c/core/tcp_in.c:1389-1807 | one arrival, in order, out of order, duplicate or outside the window, keeps the invariant |
| `TcpReceive.OrderedIsSortedAndDisjoint` | lwipcore/core/c/core/tcp_in.c:1675-1685 | queued segments are sorted and pairwise disjoint, and only the last can carry the FIN |
| `TcpReceive.AbsorbOrdered` | lwipcore/core/c/core/tcp_in.c:1066-1099 | inserting a segment in front of the rest of the queue keeps order, disjointness and agreement with the stream |
| `TcpReceive.AbsorbCovers` | lwipcore/core/c/core/tcp_in.c:1066-1099 | exactly the union of the sequence numbers of the new segment and the rest is covered afterwards |
| `TcpReceive.PlaceOrdered` | lwipcore/core/c/core/tcp_in.c:1693-1807 | every insertion, at the head, in the middle, by replacement or at the end, keeps the queue ordered and cut from the stream |
| `TcpReceive.PlaceCovers` | lwipcore/core/c/core/tcp_in.c:1693-1807 | which sequence numbers an insertion adds, and exactly which it forgets: the tail of a predecessor that a short segment cuts, and a FIN on a duplicate of equal length |
| `TcpReceive.DrainKeepsInv` | lwipcore/core/c/core/tcp_in.c:1585-1624 | taking in-sequence segments off the queue keeps the invariant |
| `TcpReceive.DrainStopsAtGap` | lwipcore/core/c/core/tcp_in.c:1585-1624 | after the loop nothing in the queue can be handed up |
| `TcpReceive.ReceiveStopsAtGap` | lwipcore/core/c/core/tcp_in.c:1475-1624 | after an in-sequence arrival rcv_nxt is the first position that neither the queue nor the part of the segment inside the window holds, and nothing queued above it is lost |
| `TcpReceive.ReceiveQueues` | lwipcore/core/c/core/tcp_in.c:1656-1807 | every arrival that starts above rcv_nxt inside the window: without memory nothing changes, otherwise the queue alone does, and it covers exactly the union with the segment, less what PlaceCovers names as forgotten |
| `TcpReceive.ReceiveIgnores` | lwipcore/core/c/core/tcp_in.c:1389-1474 | an arrival that is empty, outside the window, received already or behind the FIN changes nothing |
| `TcpReceive.TrimmedHas` | lwipcore/core/c/core/tcp_in.c:1420-1501 | trimming to rcv_nxt and clipping to the window leave exactly the positions in between |
| `TcpReceive.InOrderStaysInWindow` | lwipcore/core/c/core/tcp_in.c:1481-1501 | an in-sequence segment is clipped to the window, so no window assertion fails on a queue that is in the window |
| `TcpReceive.EnqueueInWindowIff` | lwipcore/core/c/core/tcp_in.c:1660-1807 | an out-of-order insertion leaves the queue inside the window if and only if the segment was inside it, is appended (and clipped), or is ditched |
| `TcpReceive.OverrunExample` | lwipcore/core/c/core/tcp_in.c:1665-1666 | from the start of a connection: a segment that overruns the window is queued whole on the empty queue, and when the byte before it arrives rcv_wnd would become -1 |
| `TcpReceive.ForgottenExample` | lwipcore/core/c/core/tcp_in.c:1772-1805 | from the start of a connection: a queued byte that a shorter retransmission makes the queue forget |
| `TcpReceive.FinIgnoredExample` | lwipcore/core/c/core/tcp_in.c:1694-1718 | from the start of a connection: the FIN on a copy of queued bytes is not queued |
| `TcpReceive.WindowCorrect` | lwipcore/core/c/core/tcp.c:929-1003 | over every run of arrivals, tcp_recved calls and transmissions the advertised right edge never moves left (section 4.2.2.16 of RFC 1122), rcv_ann_wnd never exceeds rcv_wnd, and rcv_wnd plus what the application holds is the whole buffer |
| `TcpReceive.AnnouncedEdge` | lwipcore/core/c/core/tcp.c:929-963 | the announced right edge moves to the real one once that is a step ahead, and otherwise stays, or is at rcv_nxt when that has passed it |
| `TcpReceive.EdgeIsLastSent` | lwipcore/core/c/core/tcp_out.c:1485-1492 | over every run rcv_ann_right_edge is the edge that the last segment sent has advertised |
| `TcpReceive.StepKeepsWindow` | lwipcore/core/c/core/tcp.c:929-1003 | the same for one step, with the exact change of the window |
| `TcpReceive.ArrivalKeepsWindow` | lwipcore/core/c/core/tcp_in.c:1556-1599 | an arrival keeps the window numbers consistent, whether it is taken, queued or dropped |
| `TcpIn.OosInsertSegment` | lwipcore/core/c/core/tcp_in.c:1066-1099 | the loop on 32-bit sequence numbers computes the insertion on stream positions |
| `TcpIn.TrimSeg` | lwipcore/core/c/core/tcp_in.c:1744-1748 | shortening a segment to end where another begins |
| `TcpIn.ClipSeg` | lwipcore/core/c/core/tcp_in.c:1481-1501 | clipping to the right window edge takes the FIN with the excess |
| `TcpIn.InsertBefore` | lwipcore/core/c/core/tcp_in.c:1720-1732 | insertion in front of a queued segment, behind an optional predecessor |
| `TcpIn.ReplaceAt` | lwipcore/core/c/core/tcp_in.c:1694-1718 | on equal sequence numbers the longer segment wins |
| `TcpIn.PutBetween` | lwipcore/core/c/core/tcp_in.c:1733-1753 | insertion between two segments cuts the predecessor and absorbs successors |
| `TcpIn.TryInsertAt` | lwipcore/core/c/core/tcp_in.c:1693-1754 | one turn of the walk over the queue |
| `TcpIn.AppendLast` | lwipcore/core/c/core/tcp_in.c:1772-1805 | appending at the end: refused behind a FIN, clipped to the window |
| `TcpIn.QueueOoseq` | lwipcore/core/c/core/tcp_in.c:1660-1807 | the whole walk, with and without memory for the copy, is the insertion on positions |
| `TcpIn.AbsorbInOrder` | lwipcore/core/c/core/tcp_in.c:1502-1554 | binning and trimming the queue against an in-sequence segment |
| `TcpIn.TcpPcb.constructor` | lwipcore/core/c/core/tcp_in.c:695-698 | a new connection matches the initial receive state |
| `TcpIn.TcpPcb.UpdateRcvAnnWnd` | lwipcore/core/c/core/tcp.c:929-963 | the announced window and the inflation, from 32-bit edges, equal those on positions |
| `TcpIn.TcpPcb.KeepRightEdge` | lwipcore/core/c/core/tcp.c:941-960 | the window that keeps the right edge in place, in sixteen bits |
| `TcpIn.TcpPcb.DrainQueue` | lwipcore/core/c/core/tcp_in.c:1585-1624 | the draining loop on 32-bit numbers, or the point where its window assertion stops it |
| `TcpIn.TcpPcb.TakeInOrder` | lwipcore/core/c/core/tcp_in.c:1475-1624 | the in-sequence branch equals its counterpart on positions; recv_data is what was appended to the delivered bytes |
| `TcpIn.TcpPcb.TrimFirstEdge` | lwipcore/core/c/core/tcp_in.c:1420-1468 | trimming what has been received already |
| `TcpIn.TcpPcb.InWindow` | lwipcore/core/c/core/tcp_in.c:1473-1474 | the comparison modulo 2^32 decides membership of the window |
| `TcpIn.TcpPcb.Enqueue` | lwipcore/core/c/core/tcp_in.c:1660-1807 | the out-of-sequence branch equals its counterpart on positions |
| `TcpIn.TcpPcb.Receive` | lwipcore/core/c/core/tcp_in.c:1389-1807 | tcp_receive refines the receive step on positions, field by field, and keeps the invariant |
| `TcpIn.TcpPcb.Process` | lwipcore/core/c/core/tcp_in.c:995-1056 | tcp_process: the receive step, then the transition of the connection state that a FIN and an acknowledgement of everything cause; the queue is empty on the way into TIME_WAIT, and LAST_ACK reports the close exactly when all is acknowledged |
| `TcpIn.NextStateExact` | lwipcore/core/c/core/tcp_in.c:995-1056 | each of the two FINs is noted in the state when it is received or acknowledged, in either order, and neither is forgotten; LAST_ACK waits for its end |
| `TcpIn.FinsDetermine` | lwipcore/core/c/core/tcp_in.c:995-1056 | which FINs are sent, received and acknowledged, and who closed first, determine the state |
| `TcpIn.NothingBehindFin` | lwipcore/core/c/core/tcp_in.c:1009-1043 | purging on the way into TIME_WAIT finds the out-of-order queue empty: behind a FIN nothing is queued |
| `TcpIn.TcpPcb.Run` | lwipcore/core/c/core/tcp_in.c:995-1807 | over every run in 32-bit numbers, each read as the nearest position: the fields are the wrapped image of the run on positions, the bytes handed up are those reassembled there, and a window assertion fails exactly when an arrival takes more than the window, never with a peer that respects it |
| `TcpIn.RespectfulNoOverrun` | lwipcore/core/c/core/tcp_in.c:1593-1599 | with a peer that respects the window no arrival of a run takes more than the window |
| `TcpIn.TcpPcb.Recved` | lwipcore/core/c/core/tcp.c:967-1003 | tcp_recved with its sixteen-bit overflow check is the saturating window update, and an explicit update is sent exactly when the right edge has moved by both the step and the threshold |
| `TcpIn.TcpPcb.FreeOoseq` | lwipcore/core/c/core/tcp.c:2386-2395 | the queue is dropped and nothing else |
| `TcpIn.TcpPcb.NoteTransmit` | lwipcore/core/c/core/tcp_out.c:1485-1492 | every transmission advertises the current right edge |
| `TcpIn.TcpPcb.AccountEof` | lwipcore/core/c/core/tcp_in.c:542-546 | the window is corrected for the FIN, once, up to its maximum |
| `InetChksum.Chksum1` | lwipcore/core/c/core/inet_chksum.c:79-114 | version 1 returns the Internet sum of the bytes, in either byte order |
| `InetChksum.Chksum2` | lwipcore/core/c/core/inet_chksum.c:132-173 | version 2 returns the same from any alignment, reads u16_t at even addresses only, and its 32-bit accumulator does not overflow up to 0x20000 bytes |
| `InetChksum.Chksum3` | lwipcore/core/c/core/inet_chksum.c:188-255 | version 3, eight bytes per turn with carries added back, returns the same for every length and alignment, and reads u32_t at multiples of four only |
| `InetChksum.Sum16Concat` | lwipcore/core/c/core/inet_chksum.c:567-588 | the sum of a concatenation: an odd first part puts the second in the other byte lane (section 2 of RFC 1071) |
| `InetChksum.ByteOrderSwaps` | lwipcore/core/c/core/inet_chksum.c:69-78 | the two byte orders give byte-swapped sums |
| `InetChksum.SwapBytesInWord` | lwipcore/core/c/core/inet_chksum.c:167-170 | exchanging the bytes of a word multiplies it by 256 with end-around carry |
| `InetChksum.AddWithCarry` | lwipcore/core/c/core/inet_chksum.c:213-225 | adding with the carry put back is addition modulo 2^32 - 1 |
| `InetChksum.AddInLane` | lwipcore/core/c/core/inet_chksum.c:567-588 | adding a piece to a running sum that may be swapped, for both parities |
| `InetChksum.AddPiece` | lwipcore/core/c/core/inet_chksum.c:576-586 | one turn of a chain loop keeps the accumulator within sixteen bits with a single fold |
| `InetChksum.SumChain` | lwipcore/core/c/core/inet_chksum.c:265-283 | for every split into pbufs, empty and odd ones included, the chain sum is the flat sum |
| `InetChksum.ChksumPbuf` | lwipcore/core/c/core/inet_chksum.c:567-588 | inet_chksum_pbuf is the inverted flat sum |
| `InetChksum.SumChainPartial` | lwipcore/core/c/core/inet_chksum.c:403-428 | the partial loop sums exactly the first bytes, across pbuf boundaries, or the whole chain if that is shorter; its assertion fails exactly when 0x7fff or more of the requested bytes lie behind the first pbuf |
| `InetChksum.SumAddresses` | lwipcore/core/c/core/inet_chksum.c:313-324 | the addresses of the pseudo header, folded |
| `InetChksum.ChksumPseudo` | lwipcore/core/c/core/inet_chksum.c:259-294 | the checksum over pseudo header and chain is the one the reference defines |
| `InetChksum.ChksumPseudoPartial` | lwipcore/core/c/core/inet_chksum.c:398-440 | the partial checksum is that of the first bytes alone, or of the whole chain if that is shorter, unless that assertion fails |
| `InetChksum.PseudoOnBytes` | lwipcore/core/c/core/inet_chksum.c:258-294 | in either byte order the pseudo-header checksum is the inverted Internet sum over the bytes of addresses, zero, protocol, length and body (section 3.1 of RFC 793) |
| `InetChksum.ReceiverAccepts` | lwipcore/core/c/core/inet_chksum.c:258-294 | with the checksum in its zeroed field the sum over pseudo header and segment is 0xffff for receivers of either byte order |
| `InetChksum.LongTailExample` | lwipcore/core/c/core/inet_chksum.c:416-416 | a chain of one and 0x7fff bytes on which the assertion fails |
| `InetChksum.AddChksum` | lwipcore/core/c/core/tcp_out.c:282-295 | the running checksum of a segment with its swapped flag stays right when data is appended |
| `InetChksum.OutputChksum` | lwipcore/core/c/core/tcp_out.c:1566-1618 | the header summed afresh and combined with the copied checksum equals the full pseudo-header checksum of the finished segment |
| `TcpOut.SendPcb.Run` | lwipcore/core/c/core/tcp_out.c:389-812 | over every run of writes, transmissions, acknowledgements of any number, window and congestion window changes, timeouts, fast retransmissions and splits, up to a failed assertion: unacked followed by unsent is exactly the written stream from the oldest queued byte, snd_buf plus the queued bytes is TCP_SND_BUF, and snd_queuelen is the number of pbufs |
| `TcpOut.SendPcb.Apply` | lwipcore/core/c/core/tcp_out.c:389-812 | one such step does what it is for: the write, the new acknowledgement, the window, the timeout, the retransmission, the split; it halts only where an assertion fails |
| `TcpOut.SendPcb.Write` | lwipcore/core/c/core/tcp_out.c:389-812 | tcp_write is a transaction: an error leaves queues and accounts unchanged, success appends exactly the data, as much as fits behind the last segment and the rest in the least number of new ones, all but the last of the full size; the assertions fail exactly when the last unsent segment exceeds mss_local; success is guaranteed with memory and queue room for the new segments, one or two pbufs each, and one pbuf; and with a fast retransmission still unsent the segments in their order hold the stream afterwards if and only if nothing was put behind it or nothing else is unacknowledged |
| `TcpOut.SegmentsLeast` | lwipcore/core/c/core/tcp_out.c:592-600 | the number of segments is the least that can hold the bytes |
| `TcpOut.SendPcb.StageData` | lwipcore/core/c/core/tcp_out.c:448-690 | the staged queue continues the stream by the data, in the least number of new segments, or, behind a segment that waits to be sent again, exactly when the data has its place there |
| `TcpOut.Stage` | lwipcore/core/c/core/tcp_out.c:448-690 | the three phases, staged, from the last unsent segment alone: it takes as much as fits, and the new segments, of the exact number, hold the rest |
| `TcpOut.PhasesContinue` | lwipcore/core/c/core/tcp_out.c:448-781 | what the three phases make continues the stream that the queues hold, with pbuf count and spare room |
| `TcpOut.BuildSegments` | lwipcore/core/c/core/tcp_out.c:592-690 | new segments for what does not fit the last one: contiguous, within mss_local, with right checksums, and as few as can be |
| `TcpOut.MakeSegment` | lwipcore/core/c/core/tcp_out.c:600-690 | one new segment and its pbufs, against memory and queue limits |
| `TcpOut.FillSpareRoom` | lwipcore/core/c/core/tcp_out.c:490-513 | data copied into the spare room of the last pbuf, which never exceeds the room in the segment |
| `TcpOut.ChainPbuf` | lwipcore/core/c/core/tcp_out.c:517-583 | one more pbuf, or a longer reference when the data is adjacent |
| `TcpOut.ExtendLast` | lwipcore/core/c/core/tcp_out.c:478-583 | both together: a prefix of the data behind the last segment, checksum included |
| `TcpOut.CommitWrite` | lwipcore/core/c/core/tcp_out.c:697-781 | the commit of a longer last segment and new ones continues the stream without gap |
| `TcpOut.PreallocLen` | lwipcore/core/c/core/tcp_out.c:224-272 | spare room is allocated exactly when more data is announced or Nagle holds the segment back, up to max_length |
| `TcpOut.MssLocalLargest` | lwipcore/core/c/core/tcp_out.c:415-418 | mss_local is the largest size within mss of which two fit the largest window seen, or mss if not even two bytes fit it |
| `TcpOut.MssLocalGrows` | lwipcore/core/c/core/tcp_out.c:415-418 | mss_local does not shrink when the window grows if and only if the first window was not below two, the second is below two as well, or half of the second holds a whole segment |
| `TcpOut.ShrinkExample` | lwipcore/core/c/core/tcp_out.c:484-487 | a run that fails the assertion: a window of one byte, a write, a window of two bytes, a write |
| `TcpOut.SendPcb.Ack` | lwipcore/core/c/core/tcp_in.c:1212-1332 | for every 32-bit number: it is new exactly when the position it stands for is above lastack and at most snd_nxt; then exactly the fully acknowledged segments go, snd_buf grows by their length and fast retransmission ends; otherwise nothing changes |
| `TcpOut.FreeAcked` | lwipcore/core/c/core/tcp_in.c:1102-1142 | the loop on 32-bit numbers frees exactly the acknowledged prefix and counts its bytes and pbufs |
| `TcpOut.AckKeepsQueues` | lwipcore/core/c/core/tcp_in.c:1298-1332 | what is left still holds the rest of the stream |
| `TcpOut.SendPcb.Output` | lwipcore/core/c/core/tcp_out.c:1326-1418 | a prefix of unsent moves to unacked: every segment sent ends inside send and congestion window and is not to be held back by Nagle, and the next one, if any, does not, or is, or was refused; a head that fits goes out when nothing is unacknowledged; behind a head below lastack nothing is sent; snd_nxt is behind the last byte ever sent |
| `TcpOut.SendPcb.SendUntil` | lwipcore/core/c/core/tcp_out.c:1326-1418 | the loop alone |
| `TcpOut.SendPcb.HeadFits` | lwipcore/core/c/core/tcp_out.c:1332-1333 | the 32-bit test is the one on positions |
| `TcpOut.BelowAckNeverFits` | lwipcore/core/c/core/tcp_out.c:1332-1333 | a segment that ends below lastack fits no window: its 32-bit offset wraps |
| `TcpOut.SendHead` | lwipcore/core/c/core/tcp_out.c:1369-1409 | one segment sent: tail of unacked, snd_nxt advanced |
| `TcpOut.InsertSorted` | lwipcore/core/c/core/tcp_out.c:1389-1397 | sorted insertion keeps all segments, at the first place that is not lower |
| `TcpOut.SendPcb.RexmitRtoPrepare` | lwipcore/core/c/core/tcp_out.c:1631-1676 | a timeout puts all of unacked in front of unsent and changes nothing else |
| `TcpOut.Rexmit` | lwipcore/core/c/core/tcp_out.c:1724-1756 | fast retransmit takes the first unacked segment and inserts it in unsent, in front if the queues were in order |
| `TcpOut.SendPcb.FastRexmit` | lwipcore/core/c/core/tcp_out.c:1724-1774 | on the queues of a connection: the first unacked segment becomes the first unsent one, both lists are in order, no segment is lost, and unsent_oversize, reset when the segment is last, is as it was |
| `TcpOut.SendPcb.SendAgain` | lwipcore/core/c/core/tcp_out.c:1369-1409 | sending it puts it back in front of unacked: queues, snd_nxt and spare room are those before the retransmission |
| `TcpOut.SendPcb.RexmitFast` | lwipcore/core/c/core/tcp_out.c:1783-1800 | retransmitted at once, when both windows let the segment out: queues, snd_nxt and spare room are as before, and the flag is set exactly then |
| `TcpOut.FastRetransmitKeepsOrder` | lwipcore/core/c/core/tcp_out.c:1724-1774 | both lists stay sorted and hold the same segments |
| `TcpOut.RtoKeepsOrderIff` | lwipcore/core/c/core/tcp_out.c:1655-1666 | with a fast retransmission just queued, putting unacked in front of unsent gives a list in order if and only if the segment was the only one unacknowledged |
| `TcpOut.UnsortedExample` | lwipcore/core/c/core/tcp_out.c:1655-1666 | a run after which unsent is not in order |
| `TcpOut.BehindRetransmissionIff` | lwipcore/core/c/core/tcp_out.c:448-781 | the queues after the three phases lengthened a segment that waits to be sent again: in their order all segments hold the stream with the data if and only if the segment took nothing or no other is unacknowledged |
| `TcpOut.WaitingStaged` | lwipcore/core/c/core/tcp_out.c:448-781 | the same with the counters, whatever else is unsent |
| `TcpOut.MisplacedExample` | lwipcore/core/c/core/tcp_out.c:517-583 | a run from a new connection: two bytes sent, the first queued for a fast retransmission, a third written; the first unsent segment now starts the stream with the first and the third byte |
| `TcpOut.SplitSegment` | lwipcore/core/c/core/tcp_out.c:826-990 | a segment split in two: the same bytes, each part with the checksum of its own |
| `TcpOut.SendPcb.SplitUnsent` | lwipcore/core/c/core/tcp_out.c:826-990 | every split of the head of unsent keeps stream and accounts; acknowledged segments stay out of the queue if and only if something is unacked or the part kept ends above lastack, and the head is stuck if and only if neither and it ends below |
| `TcpOut.StuckExample` | lwipcore/core/c/core/tcp.c:1246-1262 | a run after which nothing can be sent: the window shrinks, a timeout, half of the segment is acknowledged, the persist timer splits it |
| `TcpOut.SegmentChksum` | lwipcore/core/c/core/tcp_out.c:1566-1618 | for every queued segment the transmitted checksum is the inverted sum over pseudo header, header and payload, and with it in the header every receiver gets 0xffff |
| `TcpOut.SendPcb.UpdateWindow` | lwipcore/core/c/core/tcp_in.c:1169-1181 | the largest window seen only grows, and the queues stay valid, whatever the window |
| `Heap.Allocator.Run` | lwipcore/core/c/core/mem.c:616-976 | every program of mem_malloc, mem_free and mem_trim keeps the heap valid: blocks tile it, links agree, no two free blocks are neighbours, lfree is the lowest free block; and the live extents are the ones held |
| `Heap.Allocator.ReleaseAll` | lwipcore/core/c/core/mem.c:616-686 | giving everything back restores the single initial block |
| `Heap.Allocator.constructor` | lwipcore/core/c/core/mem.c:515-545 | mem_init: one free block |
| `Heap.Allocator.Malloc` | lwipcore/core/c/core/mem.c:830-976 | NULL if and only if the size is zero or no aligned room of header and size is left anywhere; otherwise one new, aligned extent at the lowest such place, all others unchanged |
| `Heap.Allocator.Free` | lwipcore/core/c/core/mem.c:616-686 | a live pointer ends exactly its extent; any other pointer, misaligned, out of range or freed before, changes nothing |
| `Heap.Allocator.Trim` | lwipcore/core/c/core/mem.c:698-820 | the extent keeps its address and gives up its tail; and exactly when one of its assertions does not hold, the one on the last block included |
| `Heap.TrimOfLastBlock` | lwipcore/core/c/core/mem.c:789-790 | a concrete heap on which that assertion does not hold |
| `Heap.Allocator.FirstFit` | lwipcore/core/c/core/mem.c:867-890 | the scan from lfree to MEM_SIZE_ALIGNED - size finds the lowest block that fits, or there is none |
| `Heap.Allocator.AdvanceLowest` | lwipcore/core/c/core/mem.c:931-950 | the new lowest free block |
| `Heap.Allocator.Take` | lwipcore/core/c/core/mem.c:886-950 | splitting off what can be a block, or not, keeps the heap valid |
| `Heap.Allocator.Shrink` | lwipcore/core/c/core/mem.c:750-810 | moving a free successor down, or splitting, keeps the heap valid |
| `Heap.Allocator.PlugForward` | lwipcore/core/c/core/mem.c:483-496 | joining with a free successor on the linked headers |
| `Heap.Allocator.PlugBackward` | lwipcore/core/c/core/mem.c:498-509 | joining with a free predecessor |
| `Heap.Allocator.FreeBlock` | lwipcore/core/c/core/mem.c:669-681 | freeing, lfree and both joins together |
| `Heap.LayoutDetermined` | lwipcore/core/c/core/mem.c:462-510 | the layout is determined by the live extents, whatever the history |
| `Heap.AllFreeIsInitial` | lwipcore/core/c/core/mem.c:515-545 | a heap with nothing live is the initial block |
| `Heap.FreeUndoesMalloc` | lwipcore/core/c/core/mem.c:616-976 | freeing what was just allocated restores the whole layout |
| `Heap.FreedIsFree` | lwipcore/core/c/core/mem.c:616-686 | after a free the blocks still tile the heap and one extent less is live |
| `Heap.TakenIsUsed` | lwipcore/core/c/core/mem.c:886-927 | after an allocation likewise, one more, and no more than a block too big |
| `Heap.TrimmedIsShorter` | lwipcore/core/c/core/mem.c:753-804 | after a trim likewise |
| `Heap.LiveDisjoint` | lwipcore/core/c/core/mem.c:340-370 | live extents never overlap and hold a header and the minimum |
| `Heap.NoFitIffNoRoom` | lwipcore/core/c/core/mem.c:867-890 | some free block fits if and only if there is room between the live extents |
| `Heap.FirstFitIsLowestRoom` | lwipcore/core/c/core/mem.c:867-890 | first fit takes the lowest room there is |
| `Heap.BlocksLinkValid` | lwipcore/core/c/core/mem.c:547-564 | mem_link_valid accepts every block |
| `Heap.WrapCaught` | lwipcore/core/c/core/mem.c:844-856 | the wrapped size is rejected whenever the true one does not fit the heap |
| `Heap.DataSizeLeast` | lwipcore/core/c/core/mem.c:844-851 | the size used is the least aligned one that holds the request and the minimum |
| `Pbufs.NothingLeaks` | lwipcore/core/c/core/pbuf.c:690-723 | every pbuf in the pool is on the chain of some handle |
| `Pbufs.AllReleased` | lwipcore/core/c/core/pbuf.c:690-723 | when all handles are released the pool is empty |
| `Pbufs.PoolDetermined` | lwipcore/core/c/core/pbuf.c:708-723 | which pbufs exist and all their counts follow from the handles and the links |
| `Pbufs.CutKeeps` | lwipcore/core/c/core/pbuf.c:911-930 | cutting a link turns it into a handle: counts are handles plus links before and after |
| `Pbufs.TieKeeps` | lwipcore/core/c/core/pbuf.c:866-875 | tying a chain to another uses up a handle |
| `Pbufs.RetainKeeps` | lwipcore/core/c/core/pbuf.c:828-836 | one handle more |
| `Pbufs.FreeOneKeeps` | lwipcore/core/c/core/pbuf.c:758-788 | deallocating on the last reference passes the reference to the successor on |
| `Pbufs.Pool.AllocOne` | lwipcore/core/c/core/pbuf.c:273-293 | a single new pbuf with one handle |
| `Pbufs.Pool.AllocPool` | lwipcore/core/c/core/pbuf.c:235-272 | a chain of the requested length with right totals, of exactly as many pbufs as are needed, in their order; or, exactly when memory runs out before that, the pool as it was |
| `Pbufs.Pool.Ref` | lwipcore/core/c/core/pbuf.c:828-836 | one handle and one count more on that pbuf, nothing else; the assertion fails exactly when the count was 255, and the count is zero then |
| `Pbufs.Pool.Free` | lwipcore/core/c/core/pbuf.c:724-800 | pbuf_free deallocates exactly the pbufs at the front of the chain that have one reference, takes one count from the next, and leaves all others as they were; the count it returns is the true one modulo 256 |
| `Pbufs.Pool.Run` | lwipcore/core/c/core/pbuf.c:224-940 | any program of allocations, references, concatenations, cuts and frees on the handles it holds, up to a count that overflows, keeps every count equal to handles plus links and every pbuf reachable from a handle |
| `Pbufs.Pool.Apply` | lwipcore/core/c/core/pbuf.c:224-940 | one such step: the handles it leaves the program with, and the chains it ties; it halts only when a count is 255 |
| `Pbufs.Pool.ReleaseAll` | lwipcore/core/c/core/pbuf.c:724-800 | when such a program gives all its handles back the pool is empty |
| `Pbufs.ReleasedOffChain` | lwipcore/core/c/core/pbuf.c:708-723 | giving up a reference to a chain leaves every pbuf off it as it was |
| `Pbufs.Pool.Cat` | lwipcore/core/c/core/pbuf.c:852-875 | the bytes are concatenated, the handle is taken over, and the totals are right if and only if they fit sixteen bits |
| `Pbufs.Pool.Chain` | lwipcore/core/c/core/pbuf.c:894-901 | as pbuf_cat, totals and all other pbufs included, but for one count more on the tail: the caller keeps its handle, unless the count was 255 |
| `Pbufs.Pool.Dechain` | lwipcore/core/c/core/pbuf.c:911-940 | the pool afterwards, exactly, with right totals on both sides; with k the number of pbufs at the front of the tail that have one reference only, NULL is returned exactly when there is no tail or k is not a multiple of 256, and a deallocated tail exactly when k is a positive multiple of 256 |
| `Pbufs.DechainedProper` | lwipcore/core/c/core/pbuf.c:915-925 | with right totals before, the first pbuf and what is left of the tail have right totals |
| `Pbufs.DechainLongTail` | lwipcore/core/c/core/pbuf.c:911-940 | a concrete tail of 256 pbufs that is deallocated and still returned |
| `Pbufs.Pool.Realloc` | lwipcore/core/c/core/pbuf.c:401-459 | the chain holds the first new_len bytes, right totals stay right, the rest is released, and pbufs off the chain are as they were |
| `Pbufs.Pool.FreeHeader` | lwipcore/core/c/core/pbuf.c:670-688 | the chain holds the bytes behind the first size ones, whoever else references its pbufs; pbufs off the chain are as they were |
| `Timeouts.TimeoutList.CheckTimeouts` | lwipcore/core/c/core/timeouts.c:351-396 | the call ends once the handlers stop setting timers that are due already; it fires only due timers, in due order and first set first, leaves none due, loses none, and calls a cyclic timer at most twice, never sooner than its interval, and exactly on schedule with prompt handlers |
| `Timeouts.EndsIff` | lwipcore/core/c/core/timeouts.c:351-396 | the loop ends if and only if from some turn on the handlers it calls set nothing that is due already |
| `Timeouts.StandingClockIff` | lwipcore/core/c/core/timeouts.c:351-396 | with handlers that set one timer each the loop ends if and only if that timer has a delay, the clock has moved on, or there is no memory for it; otherwise it never does |
| `Timeouts.TimeoutList.Run` | lwipcore/core/c/core/timeouts.c:289-396 | over runs of any length, however often the 32-bit clock wraps: the timers called over the whole run are called in due order, first set first, each once, before all that are still pending; a cyclic timer is due no sooner than an interval after the last time, and exactly one interval after it if checks come within half an interval |
| `Timeouts.RoundSteady` | lwipcore/core/c/core/timeouts.c:231-261 | one turn of the loop keeps every cyclic timer on its schedule |
| `Timeouts.SteadyTrans` | lwipcore/core/c/core/timeouts.c:231-261 | the schedules of consecutive checks join |
| `Timeouts.TimeLessExact` | lwipcore/core/c/core/timeouts.c:72-73 | the comparison modulo 2^32 orders times within half the range |
| `Timeouts.TimeoutList.TimeoutAbs` | lwipcore/core/c/core/timeouts.c:179-221 | insertion at the only place that keeps the list sorted and first-in-first-out among equals |
| `Timeouts.InsertSorted` | lwipcore/core/c/core/timeouts.c:205-220 | setting a timer keeps the list sorted and adds exactly that timer |
| `Timeouts.SortedDetermined` | lwipcore/core/c/core/timeouts.c:205-220 | a sorted list is determined by what is in it |
| `Timeouts.TimeoutList.Timeout` | lwipcore/core/c/core/timeouts.c:289-306 | a delay from now, with wrap-around |
| `Timeouts.TimeoutList.Untimeout` | lwipcore/core/c/core/timeouts.c:316-341 | the first matching timer is removed and nothing else |
| `Timeouts.RemoveSorted` | lwipcore/core/c/core/timeouts.c:327-339 | cancelling keeps order and everything with another task |
| `Timeouts.RemoveFirstIs` | lwipcore/core/c/core/timeouts.c:327-339 | exactly the first timer of the task is taken out |
| `Timeouts.TimeoutList.Rearm` | lwipcore/core/c/core/timeouts.c:231-261 | a cyclic timer is re-armed on its own schedule, or from now if it is late |
| `Timeouts.TimeoutList.Fire` | lwipcore/core/c/core/timeouts.c:377-391 | one turn of the loop |
| `Timeouts.RoundKeeps` | lwipcore/core/c/core/timeouts.c:361-395 | what has fired precedes what is pending, whatever the handlers do |
| `Timeouts.RoundCounts` | lwipcore/core/c/core/timeouts.c:361-395 | each turn uses up firings: the measure by which the loop ends |
| `Timeouts.RoundAccounts` | lwipcore/core/c/core/timeouts.c:361-395 | nothing due is lost and nothing else becomes due |
| `Timeouts.CallSpends` | lwipcore/core/c/core/timeouts.c:241-260 | a handler call leaves fewer possible firings |
| `Timeouts.TimeoutList.Restart` | lwipcore/core/c/core/timeouts.c:403-420 | restarting rebases every time in 32 bits |
| `Timeouts.RebaseKeeps` | lwipcore/core/c/core/timeouts.c:398-420 | order, gaps and tasks are kept, and the first timer is due now |
| `Timeouts.TimeoutList.SleepTime` | lwipcore/core/c/core/timeouts.c:425-443 | the time to the first timer, zero when one is overdue |
| `TcpTimers.Pcbs.SlowTmr` | lwipcore/core/c/core/tcp.c:1202-1434 | the tick ends whatever the callbacks remove and register, serves every PCB active at its start exactly once unless it is removed, and leaves exactly the list that the services make, one after the other |
| `TcpTimers.ListingIff` | lwipcore/core/c/core/tcp.c:1202-1434 | active afterwards are exactly those that were and those that callbacks have registered, unless a later callback or the timer removed them |
| `TcpTimers.Pcbs.FastTmr` | lwipcore/core/c/core/tcp.c:1478-1522 | the same for the fast tick |
| `TcpTimers.MarkKeeps` | lwipcore/core/c/core/tcp.c:1217-1223 | marking a PCB served makes the measure smaller |
| `TcpTimers.UnlinkKeeps` | lwipcore/core/c/core/tcp.c:1386-1406 | unlinking a served PCB loses no other |
| `TcpTimers.CallbackKeeps` | lwipcore/core/c/core/tcp.c:1408-1427 | a callback loses only what it removes, and what it registers needs no service |
| `TcpTimers.Pcbs.Register` | lwipcore/core/c/core/tcp.c:1904-1905 | a new PCB carries the counter |
| `TcpRtt.RunKeepsBounds` | lwipcore/core/c/core/tcp_in.c:1357-1382 | for every run of samples up to M ticks, acknowledgements and timeouts, from any state within the bounds: sa stays in 0..8M+7, sv in 3..max(6, 4M+3) and rto in 3..0x7FFF |
| `TcpRtt.SampleWeights` | lwipcore/core/c/core/tcp_in.c:1368-1376 | the new mean is 7/8 old and 1/8 sample, the new deviation 3/4 old and 1/4 error, within one unit |
| `TcpRtt.BackoffDoubles` | lwipcore/core/c/core/tcp.c:1286-1290 | the timeout doubles with each of the first seven retransmissions, up to 0x7FFF, and then stays |
| `TcpRtt.AckedUndoes` | lwipcore/core/c/core/tcp_in.c:1260-1261 | after any number of timeouts an acknowledgement brings the timeout back to that of the estimate |
| `TcpRtt.TimeoutConverges` | lwipcore/core/c/core/tcp_in.c:1368-1376 | a constant round trip of m ticks brings the timeout to m + 3 ticks within 12 M + 11 samples, from every reachable state, and keeps it there |
| `TcpRtt.SampleFits` | lwipcore/core/c/core/tcp_in.c:1363-1376 | no cast to sixteen bits changes a value |
| `TcpRtt.Estimator.Measure` | lwipcore/core/c/core/tcp_in.c:1357-1382 | the estimator in sixteen-bit arithmetic is the filter on numbers |
| `TcpRtt.Estimator.Expire` | lwipcore/core/c/core/tcp.c:1286-1290 | the table backoff, capped at 0x7FFF, keeps the timeout within its bounds |
| `TcpRtt.Estimator.Restore` | lwipcore/core/c/core/tcp_in.c:1260-1261 | an acknowledgement undoes the backoff |
| `TcpRtt.Estimator.constructor` | lwipcore/core/c/core/tcp.c:1900-1902 | the initial estimate is within the bounds for every M |
| `TcpConn.LifecycleCorrect` | lwipcore/core/tcp_conn.go:294-471 | in every interleaving a connection is in tcpConns exactly when it is neither closed nor errored, its key argument is freed once if it is not and never if it is, and no callback type-asserts a nil error |
| `TcpConn.NeverReopens` | lwipcore/core/tcp_conn.go:294-408 | a reading or writing side once closed stays closed, and an ended connection stays ended |
| `TcpConn.RunKeeps` | lwipcore/core/tcp_conn.go:294-471 | the invariant over every run from any state that has it |
| `TcpConn.NextKeeps` | lwipcore/core/tcp_callback_export.go:46-171 | every callback, accept and goroutine step keeps it |
| `TcpConn.OpenKeepsIff` | lwipcore/core/tcp_conn.go:76-111 | a new connection is connecting, with both pipe ends open, and registering it is safe if and only if its random key is not in the table |
| `TcpConn.CollisionExample` | lwipcore/core/tcp_conn.go:77-105 | a key drawn twice loses a live connection |
| `TcpConn.ReleaseKeeps` | lwipcore/core/tcp_conn.go:463-471 | release of a live connection frees its key, once, and leaves every other connection and entry as it was |
| `TcpConn.ErrFnKeeps` | lwipcore/core/tcp_callback_export.go:139-152 | the error callback ends the connection of its key as errored, its key freed once, and changes nothing without one |
| `TcpConn.DoTakesEffect` | lwipcore/core/tcp_conn.go:112-128 | a returned handler connects, Abort marks for abortion, CloseWrite closes the writing side and CloseRead the reader, and none does anything else |
| `TcpConn.CheckStateEnds` | lwipcore/core/tcp_conn.go:353-372 | a connection found closing is closed with Ok, one found aborting is aborted with Abrt, and otherwise nothing happens |
| `TcpConn.RecvFnKeeps` | lwipcore/core/tcp_callback_export.go:82-117 | data is refused for now exactly while connecting, and for good exactly without a connection |
| `TcpConn.CheckFnQuiet` | lwipcore/core/tcp_callback_export.go:119-171 | without other goroutines the sent and poll callbacks leave an open connection alone |
| `TcpConn.ReceiveCheckLive` | lwipcore/core/tcp_conn.go:154-182 | a live connection takes data exactly when it is connected and its reading side is open, and refuses it for now exactly while it is connecting |
| `TcpConn.CheckStateKeeps` | lwipcore/core/tcp_conn.go:353-372 | with other goroutines between its three locked parts checkState returns nil only for a connection that was closed before |
| `TcpConn.EofFnKeeps` | lwipcore/core/tcp_callback_export.go:68-80 | the end-of-stream callback closes the reading side, keeps the invariant and gets a non-nil error to type-assert, whatever happens between its locked parts |
| `TcpConn.CheckFnKeeps` | lwipcore/core/tcp_callback_export.go:119-171 | the same for the sent and poll callbacks; ErrAbrt is the answer exactly without a connection or when it is found aborting |
| `TcpConn.Core.NewTCPConn` | lwipcore/core/tcp_conn.go:76-111 | registering keeps the invariant if and only if the key was not in the table |
| `TcpConn.Core.ReleaseConn` | lwipcore/core/tcp_conn.go:463-471 | a live connection ends: its key is freed once and gone from the table, both pipe ends are closed, the invariant holds and nothing else has changed |
| `TcpConn.Core.CheckStateConn` | lwipcore/core/tcp_conn.go:353-372 | with other goroutines between its three locked parts: the invariant is kept, nothing is reopened, and nil is returned exactly for a connection closed at entry |
| `TcpConn.Core.OtherStep` | lwipcore/core/tcp_conn.go:117-122 | handler return, Abort, CloseWrite and CloseRead keep the invariant, end no connection, reopen nothing and touch no table entry |
| `TcpConn.Core.SetLocalClosed` | lwipcore/core/tcp_conn.go:390-408 | the reading side is closed in every case, no connection ends, and the invariant is kept |
| `TcpConn.Core.ReceiveCheckConn` | lwipcore/core/tcp_conn.go:154-182 | for a live connection nothing changes, data is taken exactly when it is connected with an open reading side, and refused for now exactly while connecting |
| `TcpConn.Core.AbortConn` | lwipcore/core/tcp_conn.go:431-434 | a live connection ends closed, its key freed once although the error callback inside tcp_abort looks for it again |
| `TcpConn.Core.FailConn` | lwipcore/core/tcp_conn.go:449-456 | a live connection ends errored, its key freed once, and nothing else changes |
| `TcpConn.Core.TcpErrFn` | lwipcore/core/tcp_callback_export.go:139-152 | the error callback ends a live connection as errored and frees its key once |
| `TcpConn.Core.TcpRecvFn` | lwipcore/core/tcp_callback_export.go:46-117 | the receive callback keeps the invariant and does not panic |
| `TcpConn.Core.TcpCheckFn` | lwipcore/core/tcp_callback_export.go:119-171 | the sent and poll callbacks likewise |
| `Delivery.Endpoint.Run` | lwipcore/core/c/core/tcp_in.c:427-552 | over every run the bytes written to the pipe are a prefix of the peer's stream that only grows, and the end is announced only after all of it; while the handler reads and nobody closes or aborts, it is given everything that has been reassembled, and only the end of the stream ends the connection |
| `Delivery.OnTheWire` | lwipcore/core/c/core/tcp_in.c:427-552 | the same for the code in 32-bit sequence numbers and 16-bit windows: a PCB to which the same happens has handed up what the endpoint has reassembled, the handler has been given a prefix of it, and all of it once the end is announced |
| `Delivery.Endpoint.Advance` | lwipcore/core/c/core/tcp_in.c:1389-1640 | every step of the endpoint is a step of the receive path, recorded |
| `Delivery.Endpoint.TcpInput` | lwipcore/core/c/core/tcp_in.c:427-552 | a segment with data or FIN is dropped, and nothing changes, while refused data stays refused; otherwise an open reading side is given all that has been reassembled, after the sent callback if the segment acknowledges |
| `Delivery.Endpoint.TakeSegment` | lwipcore/core/c/core/tcp_in.c:455-552 | the same behind the refused data |
| `Delivery.Endpoint.HandUp` | lwipcore/core/c/core/tcp_in.c:489-552 | no data is handed up while there is refused data, and what is refused is kept |
| `Delivery.Endpoint.GotFin` | lwipcore/core/c/core/tcp_in.c:535-552 | the end waits for refused data |
| `Delivery.Endpoint.ProcessRefused` | lwipcore/core/c/core/tcp.c:1538-1600 | refused data stays, and nothing changes, exactly while the connection is connecting; otherwise an open reading side gets all of it, in order, and the end after it |
| `Delivery.Endpoint.RecvEvent` | lwipcore/core/tcp_callback_export.go:82-117 | refused whole exactly while connecting; otherwise an open reading side takes all of it, or what its reader waited for, and a closed one none; the window is given back for it in each case; never ErrAbrt |
| `Delivery.Endpoint.ClosedEvent` | lwipcore/core/tcp_callback_export.go:68-80 | the end of the stream closes the reading side |
| `Delivery.Endpoint.SentOrPoll` | lwipcore/core/tcp_callback_export.go:119-171 | the sent and poll callbacks reopen nothing, and the PCB is not used again once they end the connection |
| `Delivery.ReceiveExtends` | lwipcore/core/c/core/tcp_in.c:1475-1624 | what an arrival hands up follows what was handed up before |

## Left out

- TcpOut.SendPcb.Run: a fast retransmission is a step of a run when the window lets the segment out at once; while it waits the queues are not one stretch of the stream, and `FastRexmit`, `Write`, `SendAgain` and `RtoKeepsOrderIff` say what these calls then do.
- TcpOut.SendPcb.SplitUnsent: the header flags of a split segment that carries FIN are not modelled.
- Pbufs.Pool.Cat: chains that share pbufs with other chains keep their counts right, but totals are stated for the chain at hand only.
- Heap.Allocator.Free: a pointer to memory whose contents happen to look like the header of a used block is excluded.
- Timeouts.TimeoutList.Run: sys_restart_timeouts is not a step of these runs; `Restart` and `RebaseKeeps` treat it by itself.
- Timeouts.TimeoutList.CheckTimeouts: handlers add one-shot timers and cancel any; they do not start cyclic ones, which sys_timeouts_init alone does.
- SYN, RST and the handshake; FIN on the send side; TIME-WAIT expiry; keepalive and persist timers beyond the split.
- SACK, window scaling, timestamps, LWIP_NETIF_TX_SINGLE_PBUF and TCP_OVERSIZE_DBGCHECK, which this build does not use.
- Congestion control beyond the usable window; duplicate acknowledgement counting.
- PBUF_ROM and PBUF_REF allocation, header room in front of the payload, and the walkers that only read or copy bytes (pbuf_copy, pbuf_take, pbuf_memcmp, pbuf_memfind): easy once the chain is a byte sequence.
- Memory pools, LWIP_ALLOW_MEM_FREE_FROM_OTHER_CONTEXT and overflow checks of mem.c; this build selects libc malloc, so the heap is modelled as source.
- Raw PCB pointers held across goroutines, and what the error callback inside tcp_abort reads back through a key argument that has been freed.
- The pipe's blocking, wake-ups of writers, tcpConn.Write's loop, scheduling and liveness.
- IP, UDP, ICMP, DNS, netif and the dialers and proxies in Go: routing and plumbing.
