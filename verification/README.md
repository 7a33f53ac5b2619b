# cannelloni in Dafny

cannelloni tunnels CAN frames between machines over UDP or SCTP. This project models its core
and proves what that core guarantees: the packet format with its printer and parser, the frame
buffer, the flush pipeline with its timer, the CAN reader and writer, the SCTP connection, and
the locks.

Code that works in place is modelled in place. `Parser` moves a cursor through byte arrays and
fills frame objects; `FrameBuffer`, `Timer`, `UdpThread`, `CanThread`, `CanReader` and
`SctpThread` are classes with the program's fields. Every method is proved against functions on
values, and what the program promises is proved of those functions, over all inputs and all
runs. Sockets, clocks and the network appear as parameters: what a call returned.

| file | contents |
|---|---|
| `Can.dfy` | frames, masks, and the part of a frame that goes on the wire |
| `Sequences.dfy` | reversal, sums, the stable sort |
| `Packing.dfy` | one flush, repeated flushes, runs of insertions and flushes |
| `Codec.dfy`, `Parser.dfy` | encoding and decoding as functions; the printer and the parser |
| `Format.dfy` | the documented packet format in plain bytes |
| `Ledger.dfy`, `FrameBuffer.dfy` | ownership as bookkeeping; the frame buffer |
| `Timer.dfy`, `Deadlines.dfy` | the timer; the flush deadline |
| `UdpThread.dfy` | queueing and flushing |
| `Inbox.dfy`, `Receiver.dfy` | receiving a packet into a bounded queue |
| `CanWriter.dfy`, `CanThread.dfy`, `CanReader.dfy` | writing to and reading from the CAN socket |
| `Pipeline.dfy` | queues, packets and receiving queues put together |
| `Sending.dfy`, `Service.dfy` | the sending half as a machine; the objects that are it |
| `Bus.dfy`, `Tunnel.dfy` | from the receiving queue to the CAN bus; both halves at work |
| `Sessions.dfy`, `Link.dfy`, `SctpThread.dfy` | one SCTP connection; runs of connections as a machine; the objects that are it |
| `Locks.dfy` | deadlock and race freedom |

## Main results

- The packets are exactly the documented format, written down byte by byte without the encoder
  (`Format.PacketIff`); what has this layout is parsed to its frames, and what the parser accepts
  has it (`Format.LaidOutIsParsed`, `Format.ParsedIsLaidOut`). Printing and parsing are inverse in
  both directions (`Codec.RoundTrip`, `Codec.ReverseRoundTrip`), and the parser delivers the
  longest run of frames a buffer starts with (`Codec.ParseIsLongest`).
- Every frame is in exactly one place: in one of the three lists, once, or on loan
  (`Ledger.Partition`); each method of the frame buffer keeps this, the cached size, and the
  growth law.
- The tunnel is first in, first out if the flushes that the size threshold asks for come
  promptly: for the abstract queue (`Packing.PromptRunsAreFifo`), on the wire
  (`Pipeline.TunnelIsFifo`) and up to the receiver's queue (`Pipeline.TunnelDeliversInOrder`).
- The sending objects, under any sequence of CAN reads, of time passing and of timer expiries,
  are in the state that a machine computes from these calls (`Service.Serve`): queue, room,
  timer and packets. Order and deadlines are therefore exact conditions on the calls
  (`Sending.ServedInOrderIff`, `Sending.AlwaysInTimeIff`), and enough for no frame to be lost is
  room at the start (`Sending.RoomyIsLossless`).
- The receiving objects turn any sequence of datagrams into the queue and the room that a
  bounded queue, which overwrites its newest element, would have (`Receiver.ParsePacket`,
  `Receiver.ReceiveAll`).
- From bus to bus, with the objects of both halves at work on any reads and any answers of the
  receiving CAN socket (`Tunnel.CarryToBus`): the receiving queue becomes the bounded append of
  everything sent, in the order read where order is kept, and what its bus sees, followed by
  what it can still see, is that queue, less the frames that a classic socket cannot take and
  with the mark cleared of the frames that were refused.
- A drain in sorting mode is in ascending order of identifiers over all packets together although what a flush leaves is
  reversed (`Pipeline.SortedDrainDecodes`); without sorting it is a two-ended drain
  (`Packing.UnsortedDrain`).
- No queued frame outlives its deadline (`Deadlines.DeadlinesHold`), and over any run exactly
  the insertions in a last microsecond that are not harmless break one
  (`Deadlines.AlwaysInTimeIff`). While deadlines hold, the timer of the objects runs out within
  the timeout table's entry of every queued frame (`Service.TimerIsKept`).
- The CAN writer writes what the socket can take exactly once, in order and with its contents
  (`CanWriter.RunsWriteInOrder`, `CanThreads.CanThread.TransmitBuffer`).
- The SCTP objects, under any connections, messages, reads and expiries, are in the state that a
  machine computes from these calls, and everything they sent is the packets of its
  connections, one connection after the other (`SctpThreads.Serve`). The packets of each
  connection of a server decode to frames read during it (`Links.RunIsAccounted`,
  `Links.EachIsIsolated`), and, if every read finds a free frame, to all of them up to what is left
  queued (`Links.EachIsComplete`); the abstract sessions are isolated over all runs
  (`Sessions.ServerIsIsolated`).
- Any number of threads running any frame buffer operations never deadlock, never access a list at
  the same time and can always finish (`Locks.DeadlockFree`).

## Where the program does less than one might expect

Each of these is stated with its exact condition, most with a concrete case.

- Order is lost when a flush leaves more than one frame, because these come back reversed. At
  every packet size two frames more than fit, queued before the flush, arrive exchanged
  (`Pipeline.LateFlushReorders`). Exactly the runs without such a flush are first in, first out
  (`Packing.FifoIff`).
- Repeated flushing empties a queue if and only if every frame fits into a packet of its own
  (`Packing.DrainsIffAllFitAlone`). At the program's packet sizes every frame does
  (`Pipeline.EveryFrameFits`).
- With less than a microsecond left the timer reads as off, and an insertion starts it anew: a
  pending expiry is postponed if and only if that little is left
  (`Deadlines.RearmPostponesIff`, `Deadlines.LastMicrosecondBreaksDeadline`). A deadline is then
  missed if and only if a frame is due before the restarted timer expires
  (`Deadlines.StepKeepsInTimeIff`, and over whole runs `Deadlines.AlwaysInTimeIff`).
  README.md:100-110 of cannelloni gives the timeout as the worst case; the code is followed
  here.
- Firing the timer keeps the interval if and only if it is shorter than a second; every second of
  it becomes a millisecond (`Timers.FireKeepsIntervalIff`).
- A frame whose write was refused loses its CAN FD mark; every other one keeps it
  (`CanWriter.RunsWriteInOrder`, with the run `CanWriter.RefusalLosesMark`).
- A client's connection is isolated from the one before if and only if its queue was empty
  when it came up (`Sessions.ClientIsIsolatedIff`), and any queue can be there then
  (`Sessions.FreshIsReachable`).
- A packet that is cut off inside a frame costs a full receiving queue its newest frame
  (`Receiver.ParsePacket`), and so does a failed read from the CAN socket
  (`CanReaders.CanReader.Receive`). A read of an unexpected size keeps its frame on loan for
  good.
- The parser ends one byte past what was received if and only if it gets to a remote CAN FD
  frame of which just the flags byte is missing (`Codec.OverrunIff`, with the packet
  `Codec.OverrunningPacket`).
- It leaves its own arrays if and only if it gets to a frame whose flags byte lies behind the
  receive buffer or whose data was received but exceeds 64 bytes (`Codec.NotDefinedIff`, with
  the packets `Codec.UndefinedPacket`). The model stops there.
- It accepts classic frames of more than 8 bytes (`Codec.LongClassicFrame`), which
  doc/udp_format.md:41-42 rules out.

## Model

| member | source | states |
|---|---|---|
| Can.IdentifierParts | cannelloni.h:58-68 | masking an identifier and testing its flags takes apart what flags and number were put together from |
| Can.LengthParts | cannelloni.h:73-76 | the length byte is the CAN FD mark in the top bit and the length in the others |
| Can.SlotIsReserved | framebuffer.cpp:93-102 | a frame reserves five bytes, its length and one more if CAN FD, a remote one too, which then leaves the bytes of its data unused |
| Can.ImageTells | canthread.cpp:149-156 | a read is complete exactly at 16 or 72 bytes, and shows a CAN FD frame exactly at 72; identifier, length, flags and data in terms of the read |
| Codec.Be32Inverse | parser.cpp:35-37 | identifiers are big-endian: both directions weigh the four bytes by powers of 256, and are inverse |
| Codec.EncodedLength | parser.cpp:89-107 | valid frames take as many bytes as their wire sizes add up to |
| Codec.ViewsAreValid | parser.cpp:89-107 | what frames that fit their data arrays show on the wire is valid |
| Codec.CountCannotWrap | parser.cpp:76-109 | five bytes per frame bound the count: 5 + 5 * count <= limit, so the 16-bit count cannot wrap |
| Codec.ReadEncoded | parser.cpp:35-64 | reading one frame gives back what was printed at any place of any buffer |
| Codec.EncodeRead | parser.cpp:35-64 | whatever is read as a frame is valid and prints back to exactly the bytes consumed; only a remote CAN FD frame ends past the received length, by one byte |
| Codec.ReaderIsComplete | parser.cpp:35-64 | every valid frame that a buffer carries at a position is what is read there |
| Codec.ReaderIsSound | parser.cpp:35-64 | whatever is read at a position is valid, prints back to the bytes consumed, and overruns by at most the flags byte of a remote CAN FD frame |
| Codec.ParseIsLongest | parser.cpp:25-67 | any valid frames a buffer starts with are the first ones delivered, or the allocator failed and exactly the granted ones were |
| Codec.RoundTrip | parser.cpp:6-118 | a buffer that starts with a packet parses to exactly its frames, all good, whatever follows in the buffer |
| Codec.ParseCounts | parser.cpp:25-67 | for every buffer and allocator each outcome is characterised: completed exactly when the announced number was delivered, otherwise by what is found where the loop stops |
| Codec.ParseAccountsForBytes | parser.cpp:25-67 | for every buffer and allocator the delivered frames print to exactly the bytes consumed |
| Codec.ParseOverrun | parser.cpp:43-64 | an overrun is of one byte and comes after a remote CAN FD frame that is the last one |
| Codec.OverrunIff | parser.cpp:43-64 | the cursor ends past the received bytes if and only if the packet starts with valid frames followed by a remote CAN FD frame that lacks just its flags byte |
| Codec.OverrunningPacket | parser.cpp:43-64 | a packet of ten received bytes that ends at eleven |
| Codec.NotDefinedIff | parser.cpp:44-62 | the parser leaves its arrays if and only if the packet starts with valid frames followed by one whose flags byte lies behind the buffer or whose received data exceeds 64 bytes |
| Codec.UndefinedPacket | parser.cpp:54-62 | every packet that starts with a data frame of 65 bytes is one |
| Codec.LongClassicFrame | parser.cpp:51-63 | classic frames of more than 8 bytes are accepted |
| Codec.ReverseRoundTrip | parser.cpp:14-115 | the encoding is canonical: an accepted packet is printed back byte for byte from its frames and sequence number |
| Format.PacketIff | parser.cpp:70-118 | bytes are the packet of some frames if and only if they are version 2, op code 0, the sequence number, the big-endian count, and for each frame the big-endian identifier, the length, the flags exactly if CAN FD, the data unless remote |
| Format.LaidOutIsParsed | parser.cpp:6-68 | a buffer that starts with such bytes parses to these frames |
| Format.ParsedIsLaidOut | parser.cpp:6-68 | what the parser accepts is laid out so |
| Format.PacketIsPacked | parser.cpp:76-115 | the packet of the frames before the cut, from the frames' memory: each had its slot left inside the limit, the next one had not |
| Parser.PutFrame | parser.cpp:89-107 | writes the frame's encoding at the cursor, advances by its length, changes nothing else, and needs no more than the reserved slot |
| Parser.PackFrames | parser.cpp:76-109 | writes exactly the frames before the cut, consecutively behind the header, inside the limit |
| Parser.PackerStopsAtCut | parser.cpp:82-88 | the position where the overflow test first fails is the cut of the abstract packer |
| Parser.PutHeader | parser.cpp:110-115 | header and body together are the packet; bytes outside the header keep their values |
| Parser.BuildPacket | parser.cpp:70-118 | the bytes up to the returned end are header, identifiers, lengths, flags and data of the frames as the format wants them, as many as find their slot inside the limit; they are the packet of the frames before the cut; all writes are inside the limit |
| Parser.ReadFrame | parser.cpp:35-64 | fills a frame so that it shows what the bytes encode; stale flags and data bytes stay; a cut-off frame gets length 0; how it ends is what reading the bytes comes to |
| Parser.ParseLoop | parser.cpp:25-67 | with an arbitrary allocator, outcome and deliveries are those of the functional parser |
| Parser.ParseFrames | parser.cpp:6-68 | for every buffer and allocator: every frame obtained is delivered exactly once, in order, the one aside at which the program leaves its arrays; a failed delivery is the last one and happens exactly for a corrupt packet; the buffer is unchanged |
| Sequences.SortIsPermutation | framebuffer.cpp:157-161 | sorting keeps the multiset |
| Sequences.SortIsSorted | framebuffer.cpp:157-161 | keys never decrease |
| Sequences.SortIsStable | framebuffer.cpp:157-161 | elements of equal key keep their order |
| Packing.CutIsFirstWithoutRoom | parser.cpp:78-88 | every element before the cut has room behind its predecessors, the element at the cut has none |
| Packing.CutFits | parser.cpp:78-88 | what is written ends inside the limit |
| Packing.CachedSizeDecides | parser.cpp:82-88 | if the cached size fits, no order of the queue overflows; where every element writes all it reserves, only then |
| Packing.FlushConserves | udpthread.cpp:261-283 | a flush neither loses nor duplicates an element |
| Packing.FlushProgresses | udpthread.cpp:261-283 | a flush of a non-empty queue of elements that fit alone sends something and leaves a shorter queue |
| Packing.DrainSendsEverythingOnce | udpthread.cpp:261-283 | repeated flushes send a permutation of the queue |
| Packing.DrainNeverIdles | udpthread.cpp:261-283 | no packet of a drain is empty |
| Packing.DrainCompletes | udpthread.cpp:261-283 | a drain ends with an empty queue |
| Packing.DrainsIffAllFitAlone | parser.cpp:82-88 | some number of flushes empties the queue if and only if every element fits into a packet of its own |
| Packing.SortedDrain | udpthread.cpp:261-283 | in sorting mode the keys never decrease over all packets of a drain together |
| Packing.UnsortedDrain | framebuffer.cpp:172-184 | without sorting a drain takes alternately from the front in order and from the back in reverse |
| Packing.AtMostOneLeft | udpthread.cpp:199-207 | while flushes are prompt, a flush leaves at most one element and keeps the order |
| Packing.StepKeepsSlack | udpthread.cpp:193-207 | the invariant behind it survives every insertion and flush |
| Packing.StepIsFifo | udpthread.cpp:193-283 | a prompt step appends what arrives to everything that went through, in order |
| Packing.PromptRunsAreFifo | udpthread.cpp:193-283 | over every prompt run, what was sent followed by what is queued is what was inserted |
| Packing.FlushSettles | framebuffer.cpp:172-184 | a flush keeps the order if it leaves at most one element; otherwise it moves the last element before its turn |
| Packing.FifoIff | framebuffer.cpp:172-184 | for distinct elements a run is first in, first out if and only if none of its flushes leaves more than one element |
| Ledger.Partition | framebuffer.cpp:41-215 | balanced books mean: no list repeats a frame, no two places share one, and together they are all frames ever allocated |
| Ledger.BooksBalance | framebuffer.cpp:41-215 | being in exactly one place, for every frame, is one equation of multisets |
| FrameBuffers.GrowthLaw | framebuffer.cpp:45-57 | after k growths the allocation count is the initial size doubled k times, cut off at the cap |
| FrameBuffers.BytesIsSum | framebuffer.cpp:93-102 | the cached size is the sum of the reserved slots, and zero exactly for an empty queue |
| FrameBuffers.FrameBuffer.constructor | framebuffer.cpp:27-34 | a valid, idle buffer with the initial number of free frames |
| FrameBuffers.FrameBuffer.ResizePool | framebuffer.cpp:241-252 | appends fresh zeroed frames to the pool and keeps ownership and the growth law |
| FrameBuffers.FrameBuffer.GrowPool | framebuffer.cpp:43-57 | an empty pool grows if and only if the cap is not reached, to twice the frames or to the cap |
| FrameBuffers.FrameBuffer.RequestFrame | framebuffer.cpp:41-85 | lends the pool's head, a fresh frame, the newest queued one at the cap, or none; one free frame less; ownership and size are kept |
| FrameBuffers.FrameBuffer.InsertFramePool | framebuffer.cpp:87-91 | a loan ends at the end of the pool |
| FrameBuffers.FrameBuffer.InsertFrame | framebuffer.cpp:93-102 | a loan ends at the end of the queue; the cached size grows by five bytes, the length and one more if CAN FD, and stays the sum |
| FrameBuffers.FrameBuffer.ReturnFrame | framebuffer.cpp:104-112 | a loan ends at the head of the queue; the cached size stays the sum |
| FrameBuffers.FrameBuffer.RequestBufferFront | framebuffer.cpp:114-128 | lends the oldest queued frame, none if there is none; the cached size never underflows |
| FrameBuffers.FrameBuffer.RequestBufferBack | framebuffer.cpp:130-144 | lends the newest queued frame, none if there is none; the cached size never underflows |
| FrameBuffers.FrameBuffer.SwapBuffers | framebuffer.cpp:148-155 | exchanges queue and intermediate list with their sizes |
| FrameBuffers.FrameBuffer.SortIntermediateBuffer | framebuffer.cpp:157-161 | the intermediate list becomes its stable sort, as a permutation of the same frames, with masked identifiers that never decrease |
| FrameBuffers.FrameBuffer.SortFrames | framebuffer.cpp:157-161 | a permutation of the frame objects whose values are the stable sort of the values |
| FrameBuffers.FrameBuffer.MergeIntermediateBuffer | framebuffer.cpp:163-170 | the frames of a flush become free, and the buffer is idle again |
| FrameBuffers.FrameBuffer.ReturnIntermediateBuffer | framebuffer.cpp:172-184 | the frames from the given place on come back to the head of the queue reversed; the cached size stays the sum |
| FrameBuffers.FrameBuffer.Reset | framebuffer.cpp:203-215 | everything not on loan becomes free |
| Timers.FireKeepsIntervalIff | timer.cpp:93-97 | firing leaves a microsecond, never lengthens the interval and keeps it if and only if it is shorter than a second; every second becomes a millisecond |
| Timers.Timer.GetValue | timer.cpp:41-45 | the time left in whole microseconds, rounded down |
| Timers.Timer.IsOn | timer.cpp:99-104 | on means at least a microsecond left |
| Timers.Timer.Adjust | timer.cpp:47-59 | sets interval and time left, at least a microsecond each |
| Timers.Timer.Disable | timer.cpp:77-83 | no time left, same interval |
| Timers.Timer.Enable | timer.cpp:85-91 | the interval becomes the time left |
| Timers.Timer.Fire | timer.cpp:93-97 | one microsecond left; seconds of the interval become milliseconds |
| Deadlines.RearmStaysBounded | udpthread.cpp:193-232 | an insertion leaves the timer armed, and interval and time left within the timeout |
| Deadlines.RearmPostponesIff | udpthread.cpp:195-198 | an insertion postpones a pending expiry if and only if less than a microsecond was left |
| Deadlines.RearmIsInTime | udpthread.cpp:204-232 | the timer expires within the inserted frame's own timeout if that is shorter, else within the general one |
| Deadlines.StepKeepsInTime | udpthread.cpp:160-232 | every insertion, passing of time and expiry keeps all deadlines |
| Deadlines.StepKeepsInTimeIff | timer.cpp:99-104 | an event breaks a deadline if and only if it is an insertion in the last microsecond before an expiry and a frame is due before the restarted timer expires |
| Deadlines.AlwaysInTimeIff | udpthread.cpp:160-232 | over any run at any times, all deadlines hold in all its states if and only if none of its insertions is such a one |
| Deadlines.DeadlinesHold | udpthread.cpp:160-232 | in every reachable state a non-empty queue has an armed timer, and each frame not yet offered to a flush is offered by its deadline |
| Deadlines.LastMicrosecondBreaksDeadline | timer.cpp:99-104 | an insertion half a microsecond before the expiry nearly doubles the wait of the frame before it |
| Deadlines.FairIsShort | udpthread.cpp:204-232 | while deadlines hold, the time left is within what each frame not yet offered may wait by the timeout table |
| Deadlines.StepKeepsFair | udpthread.cpp:160-232 | no event moves a deadline further ahead than its frame may wait |
| Deadlines.StepKeepsInterval | udpthread.cpp:204-225 | with a timeout below a second the interval is the timeout, whatever happens |
| Deadlines.IdleExpiryTurnsOff | udpthread.cpp:160-168 | an expiry turns the timer off if nothing is queued, and otherwise starts the next interval |
| Deadlines.IdleStaysOff | udpthread.cpp:160-168 | a timer that is off does not expire until the next insertion |
| UdpThreads.UdpThread.constructor | udpthread.cpp:142-144 | a valid thread with an empty queue, its timer set to the general timeout |
| UdpThreads.UdpThread.TransmitFrame | udpthread.cpp:193-232 | appends the frame; the timer expires in a microsecond if at most five bytes of the packet are left, is cut down to the frame's entry in the timeout table if that is shorter than the timeout and than the time left, and else keeps its time, or starts its interval if it read as off |
| UdpThreads.UdpThread.RearmIsRearmed | udpthread.cpp:193-232 | the function that the deadlines are proved of does this to the timer |
| UdpThreads.UdpThread.OnTransmitTimer | udpthread.cpp:160-168 | a non-empty queue is flushed into exactly one packet, an empty one turns the timer off |
| UdpThreads.UdpThread.PrepareBuffer | udpthread.cpp:250-284 | sends the encoding of what the abstract flush of the queue's views sends, leaves what it leaves, makes room for what was sent, and advances the sequence number by one modulo 256 |
| Codec.FlushShows | udpthread.cpp:261-283 | a flush of frames, sorting and reversal included, shows on the wire as the same flush of their views |
| UdpThreads.UdpThread.SendPacket | udpthread.cpp:273-281 | the packet holds the bytes of the offered frames up to the cut, under the current sequence number, which then advances by one modulo 256 |
| UdpThreads.UdpThread.EndFlush | udpthread.cpp:267-283 | what was not sent is the queue, reversed; what was sent is free |
| Inbox.BoundedAppendTwice | framebuffer.cpp:43-84 | arrivals on a bounded queue in two portions are arrivals in one, whatever the room |
| Inbox.BoundedAppendNext | framebuffer.cpp:43-84 | one more arrival on a bounded queue appends, or replaces the newest element at the cap |
| Receiver.ObtainFrame | udpthread.cpp:102-105 | a free frame or the newest queued one; none exactly if there is neither |
| Receiver.ReceiveOne | udpthread.cpp:102-119 | queue, room, loans and timer after one frame of a packet, for each way it can end |
| Receiver.Deliver | udpthread.cpp:106-119 | a good frame is queued as the packet encodes it and wakes the writer; a cut-off one goes to the end of the pool |
| Receiver.ReceiveFrames | udpthread.cpp:120-124 | the loop leaves queue, room, loans and timer as the functional parse says, and allocates only fresh frames |
| Receiver.ParsePacket | udpthread.cpp:102-129 | for every packet, room and queue: the queue is the bounded append of the delivered frames, less the newest one after a cut-off frame at the cap; the exact room that is left; an allocation error exactly with neither room nor a queued frame |
| Receiver.OnDatagram | udpthread.cpp:172-182 | a datagram in the cleared buffer, cut to its size, makes of queue and room what the function says |
| Receiver.ReceiveAll | udpthread.cpp:147-184 | any sequence of datagrams folds over queue and room; whether one makes the program leave its arrays is decided by queue, room and datagrams; the loans stay the same exactly if none does; only fresh frames are added |
| CanWriter.PassKeepsOrder | canthread.cpp:181-225 | what a pass writes followed by what it leaves is the queue, frames the socket cannot take aside |
| CanWriter.PassIsShaped | canthread.cpp:181-225 | a pass consumes a prefix; a refused frame returns to the head without its mark |
| CanWriter.TransmitKeepsInOrder | canthread.cpp:181-225 | a pass keeps the order invariant and the account of marks |
| CanWriter.PassesKeepInOrder | canthread.cpp:181-225 | any number of passes with any answers of the socket keep the order invariant |
| CanWriter.PassOfNamed | canthread.cpp:181-225 | a pass over numbers, named afterwards, is the pass over what they name |
| CanWriter.RefusalLosesMark | canthread.cpp:185-223 | a CAN FD frame that a CAN FD socket refuses once is written as a classic one |
| CanWriter.PassSuitsSocket | canthread.cpp:188-213 | a classic socket is never handed a CAN FD frame, a CAN FD socket is spared none |
| CanWriter.ExpectedIff | canthread.cpp:200-205 | a frame is to be written if and only if the socket is CAN FD or the frame is not |
| CanWriter.RunsWriteInOrder | canthread.cpp:176-225 | over every run, written frames followed by queued ones are the arrivals in order, none written twice, each written with its mark unless a write of it was refused, and none as CAN FD to a classic socket |
| CanThreads.CanThread.TransmitFrame | canthread.cpp:176-179 | queues the frame, lets the timer expire in a microsecond, and appends the frame with its contents to what the socket takes and will take |
| CanThreads.CanThread.TakeFront | canthread.cpp:185-195 | lends the oldest frame, its mark noted and cleared, everything else it holds unchanged |
| CanThreads.CanThread.Offer | canthread.cpp:198-223 | a frame is written with what it holds; a written or dropped one becomes free, a refused one returns to the head |
| CanThreads.CanThread.WriteFront | canthread.cpp:184-224 | one round takes the head of the queue and nothing else, and writes its contents or none |
| CanThreads.CanThread.TransmitBuffer | canthread.cpp:181-225 | queue, writes with their contents and count are those of the abstract pass; what the socket has taken followed by what it can still take stays the same; consumed frames are free in the order of the queue; a refusal sets the timer to 25 microseconds; a classic socket is handed no CAN FD frame |
| CanReaders.Fill | canthread.cpp:138-156 | identifier, flags and data as read, the bytes behind the data kept; the length with the CAN FD mark exactly for a read of 72 bytes; the frame then shows what was read |
| CanReaders.TakeFrame | canthread.cpp:133-137 | a free frame or the newest queued one; none exactly if there is neither |
| CanReaders.CanReader.PassOn | canthread.cpp:149-159 | the frame read is appended to the network side's queue, and the timer rearmed |
| CanReaders.CanReader.Receive | canthread.cpp:132-166 | every outcome of a read: queue, room, loans, timer and count afterwards |
| Pipeline.DecodedPackets | parser.cpp:6-118 | packets decode to the views of their batches, one after the other |
| Pipeline.PacketAt | udpthread.cpp:273-274 | the i-th packet carries the i-th batch under the i-th number modulo 256 |
| Pipeline.PacketIsLaidOut | udpthread.cpp:273-274 | and has the documented layout |
| Pipeline.NumberedOn | udpthread.cpp:273-274 | consecutive numbering goes on over any number of packets |
| Pipeline.TunnelIsFifo | udpthread.cpp:193-284 | with sorting off, over every prompt run, what all packets decode to followed by the queue's view is what was inserted |
| Pipeline.LateFlushReorders | framebuffer.cpp:178-183 | at every packet size from 31 bytes on: two frames more than a packet takes, then two flushes, and the packets decode with the last two exchanged |
| Pipeline.SizeDecidesOverflow | parser.cpp:82-88 | if the cached size fits into a packet, no order of the frames overflows; without remote frames, only then |
| Pipeline.EveryFrameFits | udpthread.h:34-42 | no frame is too long for a packet of 138 bytes or more |
| Pipeline.SortedFlush | udpthread.cpp:261-283 | in a packet of a sorted queue masked identifiers never decrease, and none is greater than one that is left |
| Pipeline.SortedDrainDecodes | udpthread.cpp:261-283 | a sorted drain ends, sends no empty packet, and decodes to a permutation of the queue with masked identifiers that never decrease |
| Pipeline.UnpackedAppends | udpthread.cpp:102-182 | packets within the limit, received one after the other with whatever room there is, make of the queue the bounded append of all their frames, and the program never leaves its arrays |
| Pipeline.TunnelDeliversInOrder | udpthread.cpp:85-284 | on prompt runs the receiving queue, as the fold of the received packets, followed by the sending queue is what was there followed by what was inserted |
| Service.OnExpiry | udpthread.cpp:160-168 | an expiry and its handler are a step of the machine |
| Service.OnCan | canthread.cpp:132-166 | a read, however it ends and whatever room there is, is a step of the machine |
| Service.TimerIsKept | udpthread.cpp:204-232 | the objects in a state of a run: the table is minded while deadlines hold, and below a second the interval is the general timeout |
| Service.Serve | udpthread.cpp:147-184 | after any reads, passing time and expiries, queue, room, timer, packets and sequence number are those the machine computes; the packets decode to the frames read, in order, if flushes are prompt and for distinct frames exactly if no flush leaves more than one; all deadlines hold exactly if no read in a last microsecond harms one; packets are numbered consecutively modulo 256; while deadlines hold the timer is within the timeout table's entry of every frame not yet offered, and below a second its interval is the timeout |
| Sending.ServedInOrder | udpthread.cpp:193-284 | if every read finds a free frame and threshold flushes come before the next read, the packets decode to the frames read, in order, up to those still queued |
| Sending.ServedInOrderIff | framebuffer.cpp:172-184 | if every read finds a free frame and all frames differ, the packets decode to the frames read, in order, if and only if no flush leaves more than one frame |
| Sending.RunIsPipe | udpthread.cpp:193-284 | without losses the machine is the abstract queue, fed with the frames read |
| Sending.RoomyIsLossless | framebuffer.cpp:43-84 | room for all reads at the start is enough for none to be lost |
| Sending.NextKeepsInTime | udpthread.cpp:160-232 | reads, losses, passing time and expiries keep all deadlines |
| Sending.ServedInTime | udpthread.cpp:160-232 | in every state of a timely run a queued frame has an armed timer and is offered to a flush by its deadline |
| Sending.NextKeepsInTimeIff | timer.cpp:99-104 | a read, a loss, passing time or an expiry keeps all deadlines if and only if it is not a read that harms one in its last microsecond |
| Sending.AlwaysInTimeIff | udpthread.cpp:160-232 | the same for all states of any run |
| Sending.RunIsSteady | udpthread.cpp:160-232 | over every run no deadline lies further ahead than its frame may wait, and below a second the interval is the general timeout |
| Sending.RunIsWellformed | udpthread.cpp:193-284 | over every run all batches fit into packets, their frames are valid and their counts do not wrap |
| Sending.SentIsAppended | udpthread.cpp:85-284 | whatever was read, lost or sent late, the receiving queue becomes the bounded append of everything sent, and the receiver never leaves its arrays |
| Sending.ServedAndDelivered | udpthread.cpp:85-284 | the same conditions and room at the other end: the receiving queue grows by the frames read, in order |
| Bus.OrderIsRelayed | canthread.cpp:181-225 | in every state of the writer, what the bus saw followed by what it can still see is the queue it started with, frames the socket cannot take aside and unmarked where a write was refused |
| Bus.ClassicBus | canthread.cpp:200-210 | a classic bus sees no CAN FD frame |
| Bus.FdBus | canthread.cpp:188-197 | a CAN FD bus sees every frame at its place, as it was queued or, if refused, without its mark |
| Bus.Relay | canthread.cpp:181-225 | the same of the writer's objects after any number of passes with any answers of the socket; no frame stays on loan, and none is lost between queue and pool |
| Tunnel.SentArrives | udpthread.cpp:85-284 | what unpacking the packets of any run makes of a receiving queue: the bounded append of everything sent, and in favourable circumstances the frames read, in order |
| Tunnel.Carry | udpthread.cpp:85-284 | the objects of both halves: any reads on one side bring the sender to the machine's state and the receiving queue to what unpacking its packets makes of it; without losses and late flushes that is the frames read, in the order read, up to what the sender still holds; packets that fit into the receive buffer leave no frame of the receiver on loan |
| Tunnel.CarryToBus | canthread.cpp:132-225 | from one CAN bus to the other: what the second bus sees, followed by what it can still see, is what the receiving queue had become, frames its socket cannot take aside and unmarked where a write was refused |
| Sessions.StepConserves | sctpthread.cpp:98-255 | connecting, disconnecting, inserting, taking back and flushing conserve frames on a connection |
| Sessions.RunConserves | sctpthread.cpp:98-255 | the same over every run, and a server's connections start empty |
| Sessions.ServerIsIsolated | sctpthread.cpp:152-155 | over all runs, what a server sends on a connection was inserted during it |
| Sessions.ClientIsIsolatedIff | sctpthread.cpp:160-181 | a client's connection is isolated, whatever happens on it, if and only if its queue was empty when it came up |
| Sessions.CarriedLeaks | sctpthread.cpp:160-181 | the first flush of a client's connection sends what the one before left |
| Sessions.FreshIsReachable | sctpthread.cpp:160-181 | a client can come to a connection with any queue left from the one before |
| Links.ReadIsAccounted | canthread.cpp:132-166 | a read, whatever room there is, adds to a session no more than the frame read, and nothing while there is no connection |
| Links.NextIsAccounted | sctpthread.cpp:98-255 | every call keeps each connection accounted for by what was read during it |
| Links.RunIsAccounted | sctpthread.cpp:98-255 | over every run each connection of the machine counts only frames read during it, and the machine can run exactly if the calls fit the connections that come and go |
| Links.EachIsIsolated | sctpthread.cpp:152-181 | the packets of each connection decode to frames read during it; a client's add no more than its queue held when it came up |
| Links.SpansAreNumbered | sctpthread.cpp:98-255 | the packets of all connections are numbered consecutively modulo 256 |
| Links.RunIsChained | sctpthread.cpp:152-181 | a server's connection starts with an empty queue, a client's with what the one before left |
| Links.RunIsExact | sctpthread.cpp:245-255 | if every read finds a free frame, each connection has inserted exactly what was read during it, in order, and lost none |
| Links.EachIsComplete | sctpthread.cpp:98-255 | then its packets and what it left queued are what was read during it and what its queue held when it came up |
| Links.EnoughIsAmple | framebuffer.cpp:43-84 | room for all reads at the start is enough for that |
| SctpThreads.SctpThread.Connect | sctpthread.cpp:152-181 | an established connection is the session's step: a server's queue becomes free, a client's stays |
| SctpThreads.SctpThread.OnReceive | sctpthread.cpp:218-230 | an empty or failed receive is the session's disconnecting step, after which queue and packets still agree with the session |
| SctpThreads.SctpThread.TransmitFrame | sctpthread.cpp:245-255 | an arrival in the session: queued and the timer rearmed while connected, otherwise freed and the timer left |
| SctpThreads.SctpThread.OnTransmitTimer | sctpthread.cpp:199-206 | on a connection an expiry with a queued frame is the session's flush, and otherwise turns the timer off |
| SctpThreads.SctpThread.FromCan | canthread.cpp:132-166 | a read is an eviction, an arrival, both or nothing in the session |
| SctpThreads.Serve | sctpthread.cpp:98-255 | after any connections, messages, reads and expiries, session, room and numbering are those the machine computes from the calls; everything sent is the packets of its connections, in turn, numbered consecutively; those of each connection decode to frames read during it, a client's add no more than its queue held when it came up; and nothing is missing if every read found a free frame |
| Locks.RequestFrameIsBalanced | framebuffer.cpp:41-85 | requesting takes the queue's lock only while it holds the pool's, and gives everything back |
| Locks.ReturnIsBalanced | framebuffer.cpp:172-184 | returning frames acquires nothing new while it holds the queue's lock |
| Locks.PrepareBufferIsBalanced | udpthread.cpp:261-283 | a whole flush keeps the discipline and gives everything back |
| Locks.OperationIsBalanced | framebuffer.cpp:41-252 | so does every operation, and it accesses a list only while it holds its lock |
| Locks.OperationTouches | framebuffer.cpp:41-252 | which lists each operation reads or changes |
| Locks.StepsTouch | framebuffer.cpp:148-170 | which lists the steps of a flush read or change |
| Locks.SoundIsRaceFree | framebuffer.cpp:41-252 | no two threads are about to access the same list |
| Locks.StepKeepsSound | framebuffer.cpp:41-252 | no step lets two threads hold a lock or breaks a thread's discipline |
| Locks.NoDeadlock | framebuffer.cpp:41-252 | if some thread has not finished, some thread can take its next action |
| Locks.CanFinish | framebuffer.cpp:41-252 | from every reachable state some schedule lets all threads finish |
| Locks.DeadlockFree | framebuffer.cpp:41-252 | for any number of threads, any operations and any schedule: mutual exclusion, no two accesses to a list at the same time, never stuck, runs bounded by the number of actions, and always able to finish |

## Left out

- Parser.BuildPacket: frames that declare more payload than their 64-byte data array are excluded; the program copies past the array for them.
- Parser.ParseFrames: where the program reads behind its receive buffer or copies past a frame's data array the model stops (outcome `NotDefined`), since what happens then is not defined.
- Receiver.ReceiveAll: likewise ends there; the check of the sender's address is left out.
- FrameBuffers.FrameBuffer.RequestFrame: needs a buffer that ever had a frame; with none the program takes the front of an empty list. Failing allocation (`std::bad_alloc`) is not modelled.
- FrameBuffers.FrameBuffer.SortFrames: insertion sort stands for `std::list::sort`; the result, a stable sort, is the same.
- UdpThreads.UdpThread.PrepareBuffer: one atomic step; the packet size is at most 65535 bytes, which the program's constant 1472 is.
- CanThreads.CanThread.TransmitBuffer: no insertion during a pass.
- Deadlines.DeadlinesHold: over runs at whole microseconds, or with a microsecond of tolerance and no insertion in the last microsecond before an expiry; `AlwaysInTimeIff` has no such condition and is exact, with the tolerance. Size check and turning the timer off are one step.
- CanReaders.CanReader.Receive: a failed read that is not a timeout also ends the CAN thread; the model goes on.
- SctpThreads.Serve: has no clock; deadlines are stated for the UDP side.
- Tunnel.Carry: the sender works first, then the receiver; a transport that loses or reorders packets is not modelled.
- Tunnel.CarryToBus: likewise, and the receiver's CAN writer works last.
- Locks.DeadlockFree: `std::lock` takes all of its locks or none; its way of trying and backing off is not modelled.
- Receives and flushes that overlap: operations are atomic steps, and only the locks are interleaved.
- `clearPool` and destruction of the frame buffer, which deletes frames but clears only one list.
- Sockets, `select`, signals, starting and stopping threads, the block timer.
- The timeout table's file format; the table is an arbitrary map.
- Command line, logging and debug output.
