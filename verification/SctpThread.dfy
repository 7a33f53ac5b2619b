/**
 The SCTP thread: the network thread with a connection. Each method is a step of the abstract
 session, or none. What the socket calls return is a parameter.
 */
module SctpThreads {
  import opened Can
  import opened CanReaders
  import opened Codec
  import opened FrameBuffers
  import opened Inbox
  import opened Links
  import opened Pipeline
  import opened Sequences
  import opened Sessions
  import opened Timers
  import opened UdpThreads
  import Deadlines
  import Packing

  /** The packets sent since `before` carry the valid batches `sent`. */
  ghost predicate Tells(sent: seq<seq<Wire>>, packets: seq<seq<uint8>>, next: uint8,
                        before: seq<seq<uint8>>, firstNo: uint8) {
    AllValid(Flatten(sent)) && SentSince(packets, next, before, firstNo, sent)
  }

  lemma TellsNothing(packets: seq<seq<uint8>>, next: uint8)
    ensures Tells([], packets, next, packets, next)
  {
    assert packets + Packets([], next) == packets;
  }

  lemma TellsFlush(sent: seq<seq<Wire>>, packets: seq<seq<uint8>>, next: uint8, before: seq<seq<uint8>>,
                   firstNo: uint8, q: seq<Wire>, r: Packing.Rules<Wire>, batch: seq<Wire>, packets': seq<seq<uint8>>)
    requires Tells(sent, packets, next, before, firstNo) && AllValid(q)
    requires batch == Packing.Sent(q, r) && |batch| < 0x1_0000 && packets' == packets + [EncodePacket(batch, next)]
    ensures Tells(sent + [batch], packets', (next + 1) % 0x100, before, firstNo)
  {
    SentOneMore(packets, next, before, firstNo, sent, batch);
    FlushIsValid(q, r);
    ValidAppend(sent, batch);
  }

  class SctpThread {
    const net: UdpThread
    const role: Role
    var connected: bool
    /** The history of the connection, and what had been sent when it came up. */
    ghost var session: Session<Wire>
    ghost var before: seq<seq<uint8>>
    ghost var firstNo: uint8

    constructor (net: UdpThread, role: Role)
      requires net.Valid() && net.frameBuffer.totalAllocCount > 0 && net.Shown() == []
      ensures Valid() && this.net == net && this.role == role
      ensures session == Start() && before == net.packets && firstNo == net.sequenceNumber
    {
      this.net, this.role, connected := net, role, false;
      session, before, firstNo := Start(), net.packets, net.sequenceNumber;
      TellsNothing(net.packets, net.sequenceNumber);
    }

    /** The thread is in the state of its session: the queue shows what the session has queued,
        and the packets sent on the connection carry what the session has sent. */
    ghost predicate Valid()
      reads this, net, net.frameBuffer, net.frameBuffer.buffer, net.transmitTimer
    {
      && net.Valid() && net.frameBuffer.totalAllocCount > 0
      && connected == session.connected
      && net.Shown() == session.queue
      && Tells(session.sent, net.packets, net.sequenceNumber, before, firstNo)
    }

    /** Waits for a connection; `established` is whether one came up and was acceptable. A
        server then clears what the last connection left in its queue. */
    method Connect(established: bool)
      requires Valid() && !connected
      modifies `connected, `session, `before, `firstNo, net.frameBuffer
      ensures Valid() && net.frameBuffer.loaned == old(net.frameBuffer.loaned)
      ensures net.frameBuffer.frames == old(net.frameBuffer.frames)
      ensures session == if established then Sessions.Step(old(session), Event.Connect, role, net.FlushRules())
                         else old(session)
      ensures net.frameBuffer.Free() == if established && role == Server
                then Freed(old(net.frameBuffer.Free()), |old(session).queue|) else old(net.frameBuffer.Free())
      ensures if established then before == net.packets && firstNo == net.sequenceNumber
              else before == old(before) && firstNo == old(firstNo)
      ensures established && role == Server ==>
                net.frameBuffer.framePool == old(net.frameBuffer.framePool) + old(net.frameBuffer.buffer)
    {
      if established {
        connected := true;
        if role == Server {
          net.Clear();
        }
        session := Sessions.Step(session, Event.Connect, role, net.FlushRules());
        before, firstNo := net.packets, net.sequenceNumber;
        TellsNothing(net.packets, net.sequenceNumber);
      }
    }

    /** A receive that yields nothing or fails ends the session's connection; the queue stays. Any
        other leaves the session alone: the packet is for the CAN side. */
    method OnReceive(receivedBytes: int)
      requires Valid() && connected
      modifies `connected, `session
      ensures Valid()
      ensures session == if receivedBytes <= 0 then Sessions.Step(old(session), Disconnect, role, net.FlushRules())
                         else old(session)
    {
      if receivedBytes <= 0 {
        connected := false;
        session := Sessions.Step(session, Disconnect, role, net.FlushRules());
      }
    }

    /** Queues a frame, or frees it while there is no connection. */
    method TransmitFrame(frame: Frame)
      requires Valid() && frame in net.frameBuffer.loaned && frame.Value().Storable()
      modifies net.frameBuffer`buffer, net.frameBuffer`bufferSize, net.frameBuffer`loaned,
               net.frameBuffer`framePool, net.transmitTimer, `session
      ensures Valid() && net.frameBuffer.loaned == old(net.frameBuffer.loaned) - {frame}
      ensures session == Sessions.Step(old(session), Arrive(frame.Value().View()), role, net.FlushRules())
      ensures net.frameBuffer.Free()
           == if connected then old(net.frameBuffer.Free()) else Freed(old(net.frameBuffer.Free()), 1)
      ensures connected ==>
                && net.frameBuffer.framePool == old(net.frameBuffer.framePool)
                && net.transmitTimer.State() == Deadlines.Rearm(old(net.transmitTimer.State()),
                     Packing.Full(net.Shown(), net.FlushRules(), FRAME_BASE_SIZE), net.Entry(frame.id), net.timeout)
      ensures !connected ==>
                && net.frameBuffer.framePool == old(net.frameBuffer.framePool) + [frame]
                && net.transmitTimer.State() == old(net.transmitTimer.State())
    {
      ghost var s' := Sessions.Step(session, Arrive(frame.Value().View()), role, net.FlushRules());
      assert s'.sent == session.sent && s'.connected == session.connected;
      assert Tells(s'.sent, net.packets, net.sequenceNumber, before, firstNo);
      session := s';
      if connected {
        net.TransmitFrame(frame);
      } else {
        net.Drop(frame);
      }
    }

    /** Sends a packet; what it carries is not yet noted. */
    method SendPacket(transmitted: bool)
      requires Valid()
      modifies net.frameBuffer`framePool, net.frameBuffer`buffer, net.frameBuffer`bufferSize, net.frameBuffer`loaned,
               net.frameBuffer`intermediateBuffer, net.frameBuffer`intermediateBufferSize,
               net`sequenceNumber, net`txCount, net`packets
      ensures net.Valid() && net.frameBuffer.loaned == old(net.frameBuffer.loaned)
      ensures net.Shown() == Packing.Left(session.queue, net.FlushRules())
      ensures net.frameBuffer.Free()
           == Freed(old(net.frameBuffer.Free()), |Packing.Sent(session.queue, net.FlushRules())|)
      ensures old(net.packets) <= net.packets
      ensures Tells(session.sent + [Packing.Sent(session.queue, net.FlushRules())],
                    net.packets, net.sequenceNumber, before, firstNo)
    {
      ghost var packets, next := net.packets, net.sequenceNumber;
      ViewsAreValid(net.Queue());
      net.PrepareBuffer(transmitted);
      TellsFlush(session.sent, packets, next, before, firstNo, session.queue, net.FlushRules(),
                 Packing.Sent(session.queue, net.FlushRules()), net.packets);
    }

    method Flush(transmitted: bool)
      requires Valid() && connected
      modifies net.frameBuffer`framePool, net.frameBuffer`buffer, net.frameBuffer`bufferSize, net.frameBuffer`loaned,
               net.frameBuffer`intermediateBuffer, net.frameBuffer`intermediateBufferSize,
               net`sequenceNumber, net`txCount, net`packets, `session
      ensures Valid() && net.frameBuffer.loaned == old(net.frameBuffer.loaned)
      ensures session == Sessions.Step(old(session), Event.Flush, role, net.FlushRules())
      ensures net.frameBuffer.Free()
           == Freed(old(net.frameBuffer.Free()), |Packing.Sent(old(session).queue, net.FlushRules())|)
      ensures old(net.packets) <= net.packets
    {
      SendPacket(transmitted);
      session := Sessions.Step(session, Event.Flush, role, net.FlushRules());
    }

    /** The timer's handler, which there is only on a connection: a queue that is not empty is
        flushed, an empty one turns the timer off. */
    method OnTransmitTimer(expirations: nat, transmitted: bool)
      requires Valid() && connected
      modifies net.frameBuffer`framePool, net.frameBuffer`buffer, net.frameBuffer`bufferSize, net.frameBuffer`loaned,
               net.frameBuffer`intermediateBuffer, net.frameBuffer`intermediateBufferSize,
               net`sequenceNumber, net`txCount, net`packets, net.transmitTimer`value, `session
      ensures Valid() && net.frameBuffer.loaned == old(net.frameBuffer.loaned)
      ensures session == if expirations > 0 && old(session).queue != []
                         then Sessions.Step(old(session), Event.Flush, role, net.FlushRules()) else old(session)
      ensures net.frameBuffer.Free() == if expirations > 0 && old(session).queue != []
                then Freed(old(net.frameBuffer.Free()), |Packing.Sent(old(session).queue, net.FlushRules())|)
                else old(net.frameBuffer.Free())
      ensures old(net.packets) <= net.packets
      ensures net.transmitTimer.State() == if expirations > 0 && old(session).queue == []
                then Disabled(old(net.transmitTimer.State())) else old(net.transmitTimer.State())
    {
      if expirations > 0 {
        BytesIsSum(net.frameBuffer.buffer);
        if net.frameBuffer.bufferSize > 0 {
          Flush(transmitted);
        } else {
          net.transmitTimer.Disable();
        }
      }
    }

    /** Takes a frame from the buffer, the newest queued one if there is no other. */
    method Vacate() returns (frame: Frame?)
      requires Valid()
      modifies net.frameBuffer, `session
      ensures Valid()
      ensures old(net.frameBuffer.frames) <= net.frameBuffer.frames
      ensures fresh(net.frameBuffer.frames - old(net.frameBuffer.frames))
      ensures frame == null <==> Stuck(old(session).queue, old(net.frameBuffer.Free()))
      ensures net.frameBuffer.Free() == Used(old(net.frameBuffer.Free()), 1)
      ensures session == if frame != null && old(net.frameBuffer.Free()) == Room(0)
                         then Sessions.Step(old(session), Evict, role, net.FlushRules()) else old(session)
      ensures frame != null ==>
                frame in net.frameBuffer.frames && frame in net.frameBuffer.loaned && frame !in net.frameBuffer.buffer
    {
      ghost var s, c := session, net.frameBuffer.Free();
      frame := TakeFrame(net);
      assert Tells(s.sent, net.packets, net.sequenceNumber, before, firstNo);
      if frame != null && c == Room(0) {
        ghost var s' := Sessions.Step(s, Evict, role, net.FlushRules());
        assert s'.sent == s.sent && s'.connected == s.connected && s'.queue == Cleared(s.queue, c);
        session := s';
      }
    }

    /** What becomes of the frame: a failed read gives it back, a complete one fills it and passes
        it on, any other keeps it. */
    method Use(frame: Frame, read: Read)
      requires Valid() && read.Sane() && frame in net.frameBuffer.loaned && frame !in net.frameBuffer.buffer
      modifies frame, net.frameBuffer`buffer, net.frameBuffer`bufferSize, net.frameBuffer`loaned,
               net.frameBuffer`framePool, net.transmitTimer, `session
      ensures Valid()
      ensures session == if read.Complete()
                         then Sessions.Step(old(session), Arrive(read.Image()), role, net.FlushRules())
                         else old(session)
      ensures net.frameBuffer.Free() == if read.Failed? || (read.Complete() && !connected)
                then Freed(old(net.frameBuffer.Free()), 1) else old(net.frameBuffer.Free())
    {
      if read.Failed? {
        net.Drop(frame);
      } else if read.Complete() {
        Fill(frame, read);
        assert net.Shown() == old(net.Shown());
        TransmitFrame(frame);
      }
    }

    /** A read from the CAN socket for this thread. */
    method FromCan(read: Read)
      requires Valid() && read.Sane()
      modifies net.frameBuffer, net.frameBuffer.frames, net.transmitTimer, `session
      ensures Valid()
      ensures old(net.frameBuffer.frames) <= net.frameBuffer.frames
      ensures fresh(net.frameBuffer.frames - old(net.frameBuffer.frames))
      ensures session == AfterRead(old(session), old(net.frameBuffer.Free()), read, role, net.FlushRules())
      ensures net.frameBuffer.Free() == RoomLeft(old(session), old(net.frameBuffer.Free()), read)
    {
      var frame := Vacate();
      if frame != null {
        Use(frame, read);
      }
    }
  }

  // ----- Any sequence of calls

  /** The thread is in the machine's state, having sent `first` when the machine started with
      sequence number `seqNo`: its ghost fields are determined by the connections before. */
  ghost predicate Shows(t: SctpThread, l: Line, first: seq<seq<uint8>>, seqNo: uint8)
    reads t, t.net, t.net.frameBuffer, t.net.frameBuffer.buffer, t.net.transmitTimer
  {
    && t.Valid()
    && t.session == l.session && t.net.frameBuffer.Free() == l.room
    && AllLawful(l.past)
    && t.before == first + Flatten(Spans(l.past, seqNo)) && t.firstNo == NumberAfter(l.past, seqNo)
  }

  method ServeConnection(t: SctpThread, ok: bool, ghost l: Line, ghost first: seq<seq<uint8>>, ghost seqNo: uint8)
    requires Shows(t, l, first, seqNo) && !l.session.connected
    modifies t, t.net.frameBuffer
    ensures t.net.frameBuffer.frames == old(t.net.frameBuffer.frames)
    ensures Shows(t, Next(l, Establish(ok), t.role, t.net.FlushRules()), first, seqNo)
  {
    if ok {
      SpansAppend(l.past, l.session, seqNo);
      SpansGrow(first, l.past, l.session, seqNo, t.before, t.net.packets);
    }
    t.Connect(ok);
  }

  method ServeMessage(t: SctpThread, receivedBytes: int, ghost l: Line, ghost first: seq<seq<uint8>>,
                      ghost seqNo: uint8)
    requires Shows(t, l, first, seqNo) && l.session.connected
    modifies t`connected, t`session
    ensures Shows(t, Next(l, Message(receivedBytes), t.role, t.net.FlushRules()), first, seqNo)
  {
    t.OnReceive(receivedBytes);
  }

  method ServeRead(t: SctpThread, read: Read, ghost l: Line, ghost first: seq<seq<uint8>>, ghost seqNo: uint8)
    requires Shows(t, l, first, seqNo) && read.Sane()
    modifies t`session, t.net.frameBuffer, t.net.frameBuffer.frames, t.net.transmitTimer
    ensures old(t.net.frameBuffer.frames) <= t.net.frameBuffer.frames
    ensures fresh(t.net.frameBuffer.frames - old(t.net.frameBuffer.frames))
    ensures Shows(t, Next(l, Call.FromCan(read), t.role, t.net.FlushRules()), first, seqNo)
  {
    t.FromCan(read);
  }

  method ServeTimer(t: SctpThread, expirations: nat, transmitted: bool, ghost l: Line, ghost first: seq<seq<uint8>>,
                    ghost seqNo: uint8)
    requires Shows(t, l, first, seqNo) && l.session.connected
    modifies t`session, t.net`sequenceNumber, t.net`txCount, t.net`packets, t.net.frameBuffer, t.net.transmitTimer
    ensures t.net.frameBuffer.frames == old(t.net.frameBuffer.frames)
    ensures old(t.net.packets) <= t.net.packets
    ensures Shows(t, Next(l, Call.Timer(expirations, transmitted), t.role, t.net.FlushRules()), first, seqNo)
  {
    t.OnTransmitTimer(expirations, transmitted);
  }

  method ServeOne(t: SctpThread, call: Call, ghost l: Line, ghost first: seq<seq<uint8>>, ghost seqNo: uint8)
    requires Shows(t, l, first, seqNo) && Links.Possible(l.session.connected, call)
    modifies t, t.net`sequenceNumber, t.net`txCount, t.net`packets, t.net.frameBuffer, t.net.frameBuffer.frames,
             t.net.transmitTimer
    ensures old(t.net.frameBuffer.frames) <= t.net.frameBuffer.frames
    ensures fresh(t.net.frameBuffer.frames - old(t.net.frameBuffer.frames))
    ensures old(t.net.packets) <= t.net.packets
    ensures Shows(t, Next(l, call, t.role, t.net.FlushRules()), first, seqNo)
  {
    match call
    case Establish(ok) => ServeConnection(t, ok, l, first, seqNo);
    case Message(n) => ServeMessage(t, n, l, first, seqNo);
    case FromCan(read) => ServeRead(t, read, l, first, seqNo);
    case Timer(expirations, transmitted) => ServeTimer(t, expirations, transmitted, l, first, seqNo);
  }

  method ServeAll(t: SctpThread, calls: seq<Call>, ghost l: Line, ghost first: seq<seq<uint8>>, ghost seqNo: uint8)
    requires Shows(t, l, first, seqNo) && Links.Runs(l, calls, t.role, t.net.FlushRules())
    modifies t, t.net`sequenceNumber, t.net`txCount, t.net`packets, t.net.frameBuffer, t.net.frameBuffer.frames,
             t.net.transmitTimer
    ensures old(t.net.frameBuffer.frames) <= t.net.frameBuffer.frames
    ensures fresh(t.net.frameBuffer.frames - old(t.net.frameBuffer.frames))
    ensures old(t.net.packets) <= t.net.packets
    ensures Shows(t, Links.Run(l, calls, t.role, t.net.FlushRules()), first, seqNo)
  {
    ghost var r := t.net.FlushRules();
    ghost var goal, at := Links.Run(l, calls, t.role, r), l;
    var i := 0;
    while i < |calls|
      invariant 0 <= i <= |calls|
      invariant old(t.net.frameBuffer.frames) <= t.net.frameBuffer.frames
      invariant fresh(t.net.frameBuffer.frames - old(t.net.frameBuffer.frames))
      invariant old(t.net.packets) <= t.net.packets
      invariant Shows(t, at, first, seqNo)
      invariant Links.Runs(at, calls[i..], t.role, r) && goal == Links.Run(at, calls[i..], t.role, r)
    {
      assert calls[i..][0] == calls[i] && calls[i..][1..] == calls[i + 1..];
      ServeOne(t, calls[i], at, first, seqNo);
      at := Next(at, calls[i], t.role, r);
      i := i + 1;
    }
  }

  /** Any connections, messages, reads and expiries: the thread is in the state that the machine
      computes from the calls, and everything it has sent are the packets of the machine's
      connections, one connection after the other. Session isolation: the packets of each
      connection decode to frames read from the CAN bus during it; a client's may add what its
      queue held when it came up. And nothing is missing: if every read finds a free frame, what was
      read during a connection and what its queue held when it came up was sent on it or is what it
      left. */
  method Serve(t: SctpThread, calls: seq<Call>)
    requires t.Valid() && Orderly(t.session, t.role) && Feasible(FirstLog(t.session), calls)
    modifies t, t.net`sequenceNumber, t.net`txCount, t.net`packets, t.net.frameBuffer, t.net.frameBuffer.frames,
             t.net.transmitTimer
    ensures t.Valid() && Orderly(t.session, t.role)
    ensures old(t.net.frameBuffer.frames) <= t.net.frameBuffer.frames
    ensures fresh(t.net.frameBuffer.frames - old(t.net.frameBuffer.frames))
    ensures old(t.net.packets) <= t.net.packets
    ensures var l0, r := FirstLine(old(t.session), old(t.net.frameBuffer.Free())), t.net.FlushRules();
            && Links.Runs(l0, calls, t.role, r)
            && var l := Links.Run(l0, calls, t.role, r);
               && Shows(t, l, old(t.before), old(t.firstNo))
               && AllTold(l, t.role, LogOf(FirstLog(old(t.session)), calls), old(t.firstNo),
                          Ample(l0, calls, t.role, r) && old(t.session).lost == [])
               && t.net.packets == old(t.before) + Flatten(Spans(Connections(l), old(t.firstNo)))
    ensures NumberedFrom(t.net.packets, t.net.sequenceNumber, old(t.before), old(t.firstNo))
  {
    ghost var first, seqNo, r, s, room := t.before, t.firstNo, t.net.FlushRules(), t.session, t.net.frameBuffer.Free();
    ghost var l := FirstLine(s, room);
    assert first + Flatten(Spans([], seqNo)) == first;
    FeasibleRuns(s, room, calls, t.role, r);
    ServeAll(t, calls, l, first, seqNo);
    ghost var l' := Links.Run(l, calls, t.role, r);
    SpansGrow(first, l'.past, l'.session, seqNo, t.before, t.net.packets);
    RunIsTold(s, room, calls, t.role, r, seqNo);
    ConnectionsAreNumbered(first, seqNo, l', t.before, t.firstNo, t.net.packets, t.net.sequenceNumber);
  }
}
