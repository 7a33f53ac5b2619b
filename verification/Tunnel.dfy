/**
 Both halves of the tunnel at work on their own objects: what is read from one CAN bus ends up
 in the queue for the other, and on it.
 */
module Tunnel {
  import opened Bus
  import opened Can
  import opened CanReaders
  import opened CanThreads
  import opened Codec
  import opened FrameBuffers
  import opened Inbox
  import opened Pipeline
  import opened Receiver
  import opened Sending
  import opened Sequences
  import opened Service
  import opened Timers
  import opened UdpThreads
  import CanWriter
  import Ledger
  import Packing

  /** The two sides share no object. */
  ghost predicate Apart(net: UdpThread, can: CanThread)
    reads net, can, net.frameBuffer, can.frameBuffer
  {
    && net.frameBuffer != can.frameBuffer && net.transmitTimer != can.timer
    && net.frameBuffer.frames !! can.frameBuffer.frames
  }

  lemma QueuedIsOwned(fb: FrameBuffer)
    requires fb.Valid()
    ensures forall f :: f in fb.buffer ==> f in fb.frames
  {
    Ledger.Partition(fb.framePool, fb.buffer, fb.intermediateBuffer, fb.loaned, fb.frames);
  }

  /** A new network thread that can serve the calls. */
  ghost predicate Ready(net: UdpThread, calls: seq<Call>, slack: nat)
    reads net, net.frameBuffer, net.frameBuffer.buffer, net.transmitTimer
  {
    && net.Valid() && net.frameBuffer.totalAllocCount > 0
    && net.Shown() == [] && net.packets == []
    && net.transmitTimer.State() == Adjusted(net.timeout, net.timeout)
    && Runs(Start(net.Plan(), net.frameBuffer.Free()), calls, net.Plan(), slack)
  }

  /** The state that the calls bring a thread to that started with `room`. */
  ghost function Served(net: UdpThread, room: Capacity, calls: seq<Call>, slack: nat): Sender
    requires Runs(Start(net.Plan(), room), calls, net.Plan(), slack)
  {
    Run(Start(net.Plan(), room), calls, net.Plan(), slack)
  }

  // ----- What follows for the receiving queue

  /** Sorting is off, every read finds a free frame, flushes that the size threshold asks for come
      before the next read, and the receiving side has room. */
  ghost predicate Favourable(net: UdpThread, room: Capacity, calls: seq<Call>, slack: nat, c: Capacity)
    requires Runs(Start(net.Plan(), room), calls, net.Plan(), slack)
  {
    var plan, s := net.Plan(), Start(net.Plan(), room);
    && !net.sort && PACKET_BASE_SIZE <= net.payloadSize <= RECEIVE_BUFFER_SIZE
    && Lossless(s, calls, plan, slack)
    && Packing.Prompt(Idle, Events(s, calls, plan, slack), plan.rules, plan.reserve)
    && Sane(calls) && Enough(c, |Images(calls)|)
  }

  /** What unpacking the sender's packets makes of a receiving queue: if they fit into the receive
      buffer, the bounded append of everything sent; in favourable circumstances, followed by what
      the sender still holds, the frames read, in the order read. */
  ghost predicate Arrives(net: UdpThread, room: Capacity, calls: seq<Call>, slack: nat, box: Box, box': Box)
    requires Runs(Start(net.Plan(), room), calls, net.Plan(), slack)
  {
    var s := Served(net, room, calls, slack);
    && (PACKET_BASE_SIZE <= net.payloadSize <= RECEIVE_BUFFER_SIZE ==> box' == Appended(box, Flatten(s.batches)))
    && (Favourable(net, room, calls, slack, box.c) ==> box'.q + s.net.queue == box.q + Images(calls))
  }

  lemma SentArrives(net: UdpThread, room: Capacity, calls: seq<Call>, slack: nat, box: Box, seqNo: uint8)
    requires Runs(Start(net.Plan(), room), calls, net.Plan(), slack)
    requires Small(Served(net, room, calls, slack).batches)
    ensures var packets := Packets(Served(net, room, calls, slack).batches, seqNo);
            && Arrives(net, room, calls, slack, box, Unpacked(box, packets))
            && (PACKET_BASE_SIZE <= net.payloadSize <= RECEIVE_BUFFER_SIZE ==> !GoesAstray(box, packets))
  {
    if PACKET_BASE_SIZE <= net.payloadSize <= RECEIVE_BUFFER_SIZE {
      SentIsAppended(calls, net.Plan(), slack, net.sort, net.payloadSize, room, seqNo, box);
    }
    if Favourable(net, room, calls, slack, box.c) {
      ServedAndDelivered(calls, net.Plan(), slack, net.payloadSize, room, seqNo, box);
    }
  }

  /** The same, of the packets that the thread shows. */
  lemma ShownArrives(net: UdpThread, room: Capacity, calls: seq<Call>, slack: nat, box: Box, seqNo: uint8)
    requires Runs(Start(net.Plan(), room), calls, net.Plan(), slack)
    requires Shows(net, Served(net, room, calls, slack), [], seqNo)
    ensures Arrives(net, room, calls, slack, box, Unpacked(box, net.packets))
    ensures net.payloadSize <= RECEIVE_BUFFER_SIZE ==> !GoesAstray(box, net.packets)
  {
    SentArrives(net, room, calls, slack, box, seqNo);
    assert net.packets == Packets(Served(net, room, calls, slack).batches, seqNo);
  }

  // ----- At work

  /** The sending side at work leaves the receiving side alone. */
  method Send(reader: CanReader, calls: seq<Call>, peer: CanThread, ghost slack: nat)
    requires Ready(reader.peer, calls, slack) && peer.Valid() && Apart(reader.peer, peer)
    modifies reader, reader.peer`sequenceNumber, reader.peer`txCount, reader.peer`packets,
             reader.peer.frameBuffer, reader.peer.frameBuffer.frames, reader.peer.transmitTimer
    ensures unchanged(peer.frameBuffer)
    ensures peer.Valid() && Apart(reader.peer, peer) && BoxOf(peer.frameBuffer) == old(BoxOf(peer.frameBuffer))
    ensures old(reader.peer.frameBuffer.frames) <= reader.peer.frameBuffer.frames
    ensures fresh(reader.peer.frameBuffer.frames - old(reader.peer.frameBuffer.frames))
    ensures Shows(reader.peer, Served(reader.peer, old(reader.peer.frameBuffer.Free()), calls, slack),
                  [], old(reader.peer.sequenceNumber))
  {
    QueuedIsOwned(peer.frameBuffer);
    Serve(reader, calls, slack);
  }

  /** The receiving side at work leaves the sending side alone. */
  method Deliver(net: UdpThread, buffer: array<uint8>, peer: CanThread, ghost room: Capacity,
                 ghost calls: seq<Call>, ghost slack: nat, ghost seqNo: uint8)
    requires Runs(Start(net.Plan(), room), calls, net.Plan(), slack)
    requires Shows(net, Served(net, room, calls, slack), [], seqNo) && Apart(net, peer)
    requires peer.Valid() && peer.frameBuffer.totalAllocCount > 0 && buffer.Length == RECEIVE_BUFFER_SIZE
    modifies buffer, peer.frameBuffer, peer.frameBuffer.frames, peer.timer
    ensures Shows(net, Served(net, room, calls, slack), [], seqNo) && Apart(net, peer)
    ensures peer.Valid() && peer.frameBuffer.totalAllocCount > 0
    ensures old(peer.frameBuffer.frames) <= peer.frameBuffer.frames
    ensures forall f :: f in peer.frameBuffer.frames ==> f in old(peer.frameBuffer.frames) || fresh(f)
    ensures BoxOf(peer.frameBuffer) == Unpacked(old(BoxOf(peer.frameBuffer)), net.packets)
    ensures Arrives(net, room, calls, slack, old(BoxOf(peer.frameBuffer)), BoxOf(peer.frameBuffer))
    ensures net.payloadSize <= RECEIVE_BUFFER_SIZE ==> peer.frameBuffer.loaned == old(peer.frameBuffer.loaned)
  {
    QueuedIsOwned(net.frameBuffer);
    ShownArrives(net, room, calls, slack, BoxOf(peer.frameBuffer), seqNo);
    var _ := ReceiveAll(buffer, net.packets, peer);
  }

  /** Any calls on one side, then the packets they sent on the other, over a transport that loses
      nothing: the sender is in the machine's state, and the receiving queue is what unpacking its
      packets makes of it. If they fit into the receive buffer, no frame of the receiving side
      stays on loan. */
  method Carry(reader: CanReader, calls: seq<Call>, buffer: array<uint8>, peer: CanThread, ghost slack: nat)
    requires Ready(reader.peer, calls, slack) && Apart(reader.peer, peer)
    requires peer.Valid() && peer.frameBuffer.totalAllocCount > 0 && buffer.Length == RECEIVE_BUFFER_SIZE
    modifies reader, reader.peer`sequenceNumber, reader.peer`txCount, reader.peer`packets,
             reader.peer.frameBuffer, reader.peer.frameBuffer.frames, reader.peer.transmitTimer,
             buffer, peer.frameBuffer, peer.frameBuffer.frames, peer.timer
    ensures peer.Valid() && peer.frameBuffer.totalAllocCount > 0 && Apart(reader.peer, peer)
    ensures old(peer.frameBuffer.frames) <= peer.frameBuffer.frames
    ensures forall f :: f in peer.frameBuffer.frames ==> f in old(peer.frameBuffer.frames) || fresh(f)
    ensures Shows(reader.peer, Served(reader.peer, old(reader.peer.frameBuffer.Free()), calls, slack),
                  [], old(reader.peer.sequenceNumber))
    ensures BoxOf(peer.frameBuffer) == Unpacked(old(BoxOf(peer.frameBuffer)), reader.peer.packets)
    ensures Arrives(reader.peer, old(reader.peer.frameBuffer.Free()), calls, slack,
                    old(BoxOf(peer.frameBuffer)), BoxOf(peer.frameBuffer))
    ensures reader.peer.payloadSize <= RECEIVE_BUFFER_SIZE ==>
              peer.frameBuffer.loaned == old(peer.frameBuffer.loaned)
  {
    ghost var room, seqNo := reader.peer.frameBuffer.Free(), reader.peer.sequenceNumber;
    Send(reader, calls, peer, slack);
    Deliver(reader.peer, buffer, peer, room, calls, slack, seqNo);
  }

  /** The writer at work leaves the sending side alone. */
  method Write(net: UdpThread, peer: CanThread, sockets: seq<CanWriter.Socket>, ghost s: Sender, ghost seqNo: uint8)
    requires Shows(net, s, [], seqNo) && peer.Valid() && Apart(net, peer)
    modifies peer.frameBuffer`buffer, peer.frameBuffer`bufferSize, peer.frameBuffer`loaned,
             peer.frameBuffer`framePool, peer.frameBuffer.buffer, peer.timer, peer`txCount, peer`writes
    ensures Shows(net, s, [], seqNo) && peer.Valid() && peer.frameBuffer.loaned == old(peer.frameBuffer.loaned)
    ensures |old(peer.writes)| <= |peer.writes| && peer.writes[..|old(peer.writes)|] == old(peer.writes)
    ensures var ws := old(Received(peer.frameBuffer));
            Faces(peer.writes[|old(peer.writes)|..]) + TakeableOf(Received(peer.frameBuffer), peer.canfd)
            == Relayed(ws, peer.canfd, Refusals(ws, peer.canfd, sockets))
  {
    QueuedIsOwned(net.frameBuffer);
    QueuedIsOwned(peer.frameBuffer);
    Relay(peer, sockets);
  }

  /** From bus to bus: `Carry`, then any number of passes of the receiving side's writer with any
      answers of its socket. What its bus saw, followed by what it can still see, is what the
      receiving queue had become: frames that the socket cannot take aside, and without the CAN FD
      mark where a write was refused. In favourable circumstances that queue, followed by what the
      sender still holds, is what it was, followed by the frames read from the first bus, in the
      order read. */
  method CarryToBus(reader: CanReader, calls: seq<Call>, buffer: array<uint8>, peer: CanThread,
                    sockets: seq<CanWriter.Socket>, ghost slack: nat)
    requires Ready(reader.peer, calls, slack) && Apart(reader.peer, peer)
    requires peer.Valid() && peer.frameBuffer.totalAllocCount > 0 && buffer.Length == RECEIVE_BUFFER_SIZE
    modifies reader, reader.peer`sequenceNumber, reader.peer`txCount, reader.peer`packets,
             reader.peer.frameBuffer, reader.peer.frameBuffer.frames, reader.peer.transmitTimer,
             buffer, peer.frameBuffer, peer.frameBuffer.frames, peer.timer, peer`txCount, peer`writes
    ensures peer.Valid()
    ensures Shows(reader.peer, Served(reader.peer, old(reader.peer.frameBuffer.Free()), calls, slack),
                  [], old(reader.peer.sequenceNumber))
    ensures |old(peer.writes)| <= |peer.writes| && peer.writes[..|old(peer.writes)|] == old(peer.writes)
    ensures var box := Unpacked(old(BoxOf(peer.frameBuffer)), reader.peer.packets);
            && Arrives(reader.peer, old(reader.peer.frameBuffer.Free()), calls, slack,
                       old(BoxOf(peer.frameBuffer)), box)
            && Faces(peer.writes[|old(peer.writes)|..]) + TakeableOf(Received(peer.frameBuffer), peer.canfd)
            == Relayed(box.q, peer.canfd, Refusals(box.q, peer.canfd, sockets))
  {
    ghost var s := Served(reader.peer, reader.peer.frameBuffer.Free(), calls, slack);
    ghost var seqNo := reader.peer.sequenceNumber;
    Carry(reader, calls, buffer, peer, slack);
    QueuedIsOwned(peer.frameBuffer);
    Write(reader.peer, peer, sockets, s, seqNo);
  }
}
