/**
 The sending half of the tunnel at work: any sequence of reads from the CAN socket, of time
 passing and of expiries of the transmit timer, carried out by the objects, is a run of the
 machine of `Sending`. What is proved of all its runs therefore holds of the packets sent.
 */
module Service {
  import opened Can
  import opened CanReaders
  import opened Codec
  import opened FrameBuffers
  import opened Inbox
  import Packing
  import opened Pipeline
  import opened Sending
  import opened Sequences
  import opened Timers
  import opened UdpThreads
  import D = Deadlines

  /** The network thread is in the machine's state, having sent `before` when it started with
      sequence number `seqNo`. */
  ghost predicate Shows(net: UdpThread, s: Sender, before: seq<seq<uint8>>, seqNo: uint8)
    reads net, net.frameBuffer, net.frameBuffer.buffer, net.transmitTimer
  {
    && net.Valid() && net.frameBuffer.totalAllocCount > 0
    && net.Shown() == s.net.queue
    && net.frameBuffer.Free() == s.room
    && net.transmitTimer.State() == s.net.timer
    && SentSince(net.packets, net.sequenceNumber, before, seqNo, s.batches)
  }

  /** What the machine sends at an expiry, as packets. */
  lemma ExpirySends(s: Sender, plan: D.Plan<Wire>, slack: nat, packets: seq<seq<uint8>>, next: uint8,
                    before: seq<seq<uint8>>, seqNo: uint8, transmitted: bool)
    requires Framed(plan.rules) && Possible(s, Expire(transmitted))
    requires SentSince(packets, next, before, seqNo, s.batches)
    ensures var s', batch := Next(s, Expire(transmitted), plan, slack), Packing.Sent(s.net.queue, plan.rules);
            if s.net.queue == [] then SentSince(packets, next, before, seqNo, s'.batches)
            else |batch| < 0x1_0000
                 && SentSince(packets + [EncodePacket(batch, next)], (next + 1) % 0x100, before, seqNo, s'.batches)
  {
    if s.net.queue != [] {
      SentFits(s.net.queue, plan.rules);
      SentOneMore(packets, next, before, seqNo, s.batches, Packing.Sent(s.net.queue, plan.rules));
    }
  }

  /** An expiry: the kernel starts the next interval, then the handler comes. */
  method OnExpiry(net: UdpThread, transmitted: bool, ghost s: Sender, ghost before: seq<seq<uint8>>,
                  ghost seqNo: uint8, ghost slack: nat)
    requires Shows(net, s, before, seqNo) && Possible(s, Expire(transmitted))
    modifies net.frameBuffer, net`sequenceNumber, net`txCount, net`packets, net.transmitTimer
    ensures net.frameBuffer.frames == old(net.frameBuffer.frames)
    ensures Shows(net, Next(s, Expire(transmitted), net.Plan(), slack), before, seqNo)
  {
    RulesAreFramed(net.sort, net.payloadSize);
    ExpirySends(s, net.Plan(), slack, net.packets, net.sequenceNumber, before, seqNo, transmitted);
    net.transmitTimer.Expire();
    net.OnTransmitTimer(1, transmitted);
  }

  /** A read from the CAN socket. */
  method OnCan(reader: CanReader, read: Read, ghost s: Sender, ghost before: seq<seq<uint8>>,
               ghost seqNo: uint8, ghost slack: nat)
    requires Shows(reader.peer, s, before, seqNo) && Possible(s, FromCan(read))
    modifies reader, reader.peer.frameBuffer, reader.peer.frameBuffer.frames, reader.peer.transmitTimer
    ensures old(reader.peer.frameBuffer.frames) <= reader.peer.frameBuffer.frames
    ensures fresh(reader.peer.frameBuffer.frames - old(reader.peer.frameBuffer.frames))
    ensures Shows(reader.peer, Next(s, FromCan(read), reader.peer.Plan(), slack), before, seqNo)
  {
    reader.Receive(read);
  }

  method ServeOne(reader: CanReader, call: Call, ghost s: Sender, ghost before: seq<seq<uint8>>,
                  ghost seqNo: uint8, ghost slack: nat)
    requires Shows(reader.peer, s, before, seqNo) && Possible(s, call)
    modifies reader, reader.peer`sequenceNumber, reader.peer`txCount, reader.peer`packets,
             reader.peer.frameBuffer, reader.peer.frameBuffer.frames, reader.peer.transmitTimer
    ensures old(reader.peer.frameBuffer.frames) <= reader.peer.frameBuffer.frames
    ensures fresh(reader.peer.frameBuffer.frames - old(reader.peer.frameBuffer.frames))
    ensures Shows(reader.peer, Next(s, call, reader.peer.Plan(), slack), before, seqNo)
  {
    match call
    case FromCan(read) => OnCan(reader, read, s, before, seqNo, slack);
    case Elapse(ns) => reader.peer.transmitTimer.Pass(ns);
    case Expire(transmitted) => OnExpiry(reader.peer, transmitted, s, before, seqNo, slack);
  }

  /** Any calls, in any order: the objects are in the state that the machine computes. */
  method ServeAll(reader: CanReader, calls: seq<Call>, ghost s: Sender, ghost before: seq<seq<uint8>>,
                  ghost seqNo: uint8, ghost slack: nat)
    requires Shows(reader.peer, s, before, seqNo) && Runs(s, calls, reader.peer.Plan(), slack)
    modifies reader, reader.peer`sequenceNumber, reader.peer`txCount, reader.peer`packets,
             reader.peer.frameBuffer, reader.peer.frameBuffer.frames, reader.peer.transmitTimer
    ensures old(reader.peer.frameBuffer.frames) <= reader.peer.frameBuffer.frames
    ensures fresh(reader.peer.frameBuffer.frames - old(reader.peer.frameBuffer.frames))
    ensures Shows(reader.peer, Run(s, calls, reader.peer.Plan(), slack), before, seqNo)
  {
    ghost var plan := reader.peer.Plan();
    ghost var goal, at := Run(s, calls, plan, slack), s;
    var i := 0;
    while i < |calls|
      invariant 0 <= i <= |calls|
      invariant old(reader.peer.frameBuffer.frames) <= reader.peer.frameBuffer.frames
      invariant fresh(reader.peer.frameBuffer.frames - old(reader.peer.frameBuffer.frames))
      invariant Shows(reader.peer, at, before, seqNo)
      invariant Runs(at, calls[i..], plan, slack) && goal == Run(at, calls[i..], plan, slack)
    {
      assert calls[i..][0] == calls[i] && calls[i..][1..] == calls[i + 1..];
      ServeOne(reader, calls[i], at, before, seqNo, slack);
      at := Next(at, calls[i], plan, slack);
      i := i + 1;
    }
  }

  /** What was sent since `before` decodes, followed by the queue, to the frames read, in order. */
  ghost predicate TellsInOrder(net: UdpThread, before: seq<seq<uint8>>, calls: seq<Call>)
    requires Sane(calls)
    reads net, net.frameBuffer, net.frameBuffer.buffer
  {
    && before <= net.packets
    && DecodedAll(net.packets[|before|..]) + net.Shown() == Images(calls)
  }

  lemma OrderOfCalls(calls: seq<Call>, plan: D.Plan<Wire>, slack: nat, limit: uint16, room: Capacity, seqNo: uint8)
    requires plan.rules == WireRules(false, limit) && plan.reserve == FRAME_BASE_SIZE && PACKET_BASE_SIZE <= limit
    requires Runs(Start(plan, room), calls, plan, slack) && Lossless(Start(plan, room), calls, plan, slack)
    requires Sane(calls) && Small(Run(Start(plan, room), calls, plan, slack).batches)
    ensures var s, es := Run(Start(plan, room), calls, plan, slack), Events(Start(plan, room), calls, plan, slack);
            var inOrder := DecodedAll(Packets(s.batches, seqNo)) + s.net.queue == Images(calls);
            && (Packing.Prompt(Idle, es, plan.rules, plan.reserve) ==> inOrder)
            && (138 <= limit && Distinct(Images(calls)) ==>
                  (inOrder <==> Packing.Straight(Idle, es, plan.rules, plan.reserve)))
  {
    if Packing.Prompt(Idle, Events(Start(plan, room), calls, plan, slack), plan.rules, plan.reserve) {
      ServedInOrder(calls, plan, slack, limit, room, seqNo);
    }
    if 138 <= limit && Distinct(Images(calls)) {
      ServedInOrderIff(calls, plan, slack, limit, room, seqNo);
    }
  }

  /** If every read finds a free frame and sorting is off, the order is kept if the flushes that
      the size threshold asks for come before the next read, and for distinct frames exactly if no
      flush leaves more than one behind. */
  ghost predicate KeepsOrder(net: UdpThread, before: seq<seq<uint8>>, s: Sender, calls: seq<Call>, slack: nat)
    requires Sane(calls) && Runs(s, calls, net.Plan(), slack)
    reads net, net.frameBuffer, net.frameBuffer.buffer
  {
    var plan, es := net.Plan(), Events(s, calls, net.Plan(), slack);
    !net.sort && Lossless(s, calls, plan, slack) ==>
      && (Packing.Prompt(Idle, es, plan.rules, plan.reserve) ==> TellsInOrder(net, before, calls))
      && (138 <= net.payloadSize && Distinct(Images(calls)) ==>
            (TellsInOrder(net, before, calls) <==> Packing.Straight(Idle, es, plan.rules, plan.reserve)))
  }

  lemma OrderIsKept(net: UdpThread, before: seq<seq<uint8>>, seqNo: uint8, room: Capacity, calls: seq<Call>,
                    slack: nat)
    requires Sane(calls) && Runs(Start(net.Plan(), room), calls, net.Plan(), slack)
    requires Shows(net, Run(Start(net.Plan(), room), calls, net.Plan(), slack), before, seqNo)
    ensures KeepsOrder(net, before, Start(net.Plan(), room), calls, slack)
  {
    var plan := net.Plan();
    if !net.sort && Lossless(Start(plan, room), calls, plan, slack) {
      OrderOfCalls(calls, plan, slack, net.payloadSize, room, seqNo);
      assert net.packets[|before|..] == Packets(Run(Start(plan, room), calls, plan, slack).batches, seqNo);
    }
  }

  /** No read in the last microsecond before an expiry: every deadline is met. With a slack of at
      least 999 nanoseconds, they are met at all times exactly if no such read harms one. */
  ghost predicate KeepsTime(s: Sender, calls: seq<Call>, plan: D.Plan<Wire>, slack: nat)
    requires Runs(s, calls, plan, slack)
  {
    && (OnTime(s, calls, plan, slack) ==> D.InTime(Run(s, calls, plan, slack).net, plan, slack))
    && (slack >= 999 ==> (AlwaysInTime(s, calls, plan, slack) <==> AllHarmless(s, calls, plan, slack)))
  }

  lemma TimeIsKept(s: Sender, calls: seq<Call>, plan: D.Plan<Wire>, slack: nat)
    requires D.InTime(s.net, plan, slack) && Runs(s, calls, plan, slack)
    ensures KeepsTime(s, calls, plan, slack)
  {
    if OnTime(s, calls, plan, slack) {
      ServedInTime(s, calls, plan, slack);
    }
    if slack >= 999 {
      AlwaysInTimeIff(s, calls, plan, slack);
    }
  }

  /** What the timeout table promises: with one of the last `waiting` frames queued, the timer runs
      out within that frame's entry, or within the general timeout if it has none that is shorter. */
  ghost predicate MindsTable(net: UdpThread, waiting: nat, slack: nat)
    reads net, net.frameBuffer, net.frameBuffer.buffer, net.transmitTimer
  {
    var q, left, table := net.Shown(), net.transmitTimer.State().value, net.timeoutTable;
    && waiting <= |q|
    && forall i :: |q| - waiting <= i < |q| ==>
         && 0 < left <= 1000 * OrOne(net.timeout) + slack
         && (MaskedId(q[i].id) in table ==> left <= 1000 * OrOne(table[MaskedId(q[i].id)]) + slack)
  }

  /** The timer's side of a run: the table is minded as long as deadlines hold, and below a second
      the interval is the general timeout. */
  ghost predicate KeepsTimer(net: UdpThread, s: Sender, slack: nat)
    reads net, net.frameBuffer, net.frameBuffer.buffer, net.transmitTimer
  {
    && (D.InTime(s.net, net.Plan(), slack) ==> MindsTable(net, |s.net.due|, slack))
    && (net.timeout < 1_000_000 ==> net.transmitTimer.State().interval == 1000 * OrOne(net.timeout))
  }

  lemma TimerIsKept(net: UdpThread, s: Sender, before: seq<seq<uint8>>, seqNo: uint8, slack: nat)
    requires Shows(net, s, before, seqNo) && Steady(s, net.Plan(), slack)
    ensures KeepsTimer(net, s, slack)
  {
    if D.InTime(s.net, net.Plan(), slack) {
      var q := s.net.queue;
      forall i | |q| - |s.net.due| <= i < |q|
        ensures var left, id := s.net.timer.value, MaskedId(q[i].id);
                && 0 < left <= 1000 * OrOne(net.timeout) + slack
                && (id in net.timeoutTable ==> left <= 1000 * OrOne(net.timeoutTable[id]) + slack)
      {
        D.FairIsShort(s.net, net.Plan(), slack, i);
      }
    }
  }

  lemma ShowsStart(net: UdpThread)
    requires net.Valid() && net.frameBuffer.totalAllocCount > 0 && net.Shown() == []
    requires net.transmitTimer.State() == Adjusted(net.timeout, net.timeout)
    ensures var s := Start(net.Plan(), net.frameBuffer.Free());
            Shows(net, s, net.packets, net.sequenceNumber) && D.InTime(s.net, net.Plan(), 0)
  {
    assert net.packets + Packets([], net.sequenceNumber) == net.packets;
  }

  /** A new thread serves any calls: its state is the machine's. So its packets decode to the
      frames read in the order read, up to those still queued, if every read finds a free frame
      and threshold flushes are prompt, and for distinct frames exactly if no flush leaves more
      than one; and all deadlines hold exactly if no read in a last microsecond harms one. All
      these conditions are about the calls and the room. */
  method Serve(reader: CanReader, calls: seq<Call>, ghost slack: nat)
    requires reader.peer.Valid() && reader.peer.frameBuffer.totalAllocCount > 0
    requires reader.peer.Shown() == []
    requires reader.peer.transmitTimer.State() == Adjusted(reader.peer.timeout, reader.peer.timeout)
    requires var plan := reader.peer.Plan();
             Runs(Start(plan, reader.peer.frameBuffer.Free()), calls, plan, slack)
    modifies reader, reader.peer`sequenceNumber, reader.peer`txCount, reader.peer`packets,
             reader.peer.frameBuffer, reader.peer.frameBuffer.frames, reader.peer.transmitTimer
    ensures old(reader.peer.frameBuffer.frames) <= reader.peer.frameBuffer.frames
    ensures fresh(reader.peer.frameBuffer.frames - old(reader.peer.frameBuffer.frames))
    ensures Sane(calls)
    ensures var plan, s := reader.peer.Plan(), Start(reader.peer.Plan(), old(reader.peer.frameBuffer.Free()));
            && Shows(reader.peer, Run(s, calls, plan, slack), old(reader.peer.packets), old(reader.peer.sequenceNumber))
            && KeepsOrder(reader.peer, old(reader.peer.packets), s, calls, slack)
            && KeepsTime(s, calls, plan, slack)
            && KeepsTimer(reader.peer, Run(s, calls, plan, slack), slack)
    ensures NumberedFrom(reader.peer.packets, reader.peer.sequenceNumber,
                         old(reader.peer.packets), old(reader.peer.sequenceNumber))
  {
    ghost var plan, before, seqNo := reader.peer.Plan(), reader.peer.packets, reader.peer.sequenceNumber;
    ghost var s := Start(plan, reader.peer.frameBuffer.Free());
    ShowsStart(reader.peer);
    RunsAreSane(s, calls, plan, slack);
    TimeIsKept(s, calls, plan, slack);
    ServeAll(reader, calls, s, before, seqNo, slack);
    OrderIsKept(reader.peer, before, seqNo, s.room, calls, slack);
    RunIsSteady(s, calls, plan, slack);
    TimerIsKept(reader.peer, Run(s, calls, plan, slack), before, seqNo, slack);
    SentIsNumbered(reader.peer.packets, reader.peer.sequenceNumber, before, seqNo, Run(s, calls, plan, slack).batches);
  }
}
