/**
 The network thread: frames that arrive from the CAN side are queued and flushed into packets
 when the transmit timer expires; packets that arrive are unpacked into the queue of the CAN
 side. Sockets are parameters: what a send or a receive returned.
 */
module UdpThreads {
  import opened Can
  import opened Codec
  import opened Format
  import opened FrameBuffers
  import opened Inbox
  import opened Packing
  import opened Parser
  import opened Sequences
  import opened Timers
  import Deadlines

  lemma LeftIsStorable(q: seq<CanFrame>, r: Rules<CanFrame>)
    requires AllStorable(q)
    ensures AllStorable(Left(q, r)) && AllStorable(Sent(q, r))
  {
    FlushConserves(q, r);
    PermutationIsStorable(Left(q, r), q);
    PermutationIsStorable(Sent(q, r), q);
  }

  lemma OfferedIsStorable(q: seq<CanFrame>, r: Rules<CanFrame>)
    requires AllStorable(q)
    ensures AllStorable(Offered(q, r))
  {
    OfferedIsPermutation(q, r);
    PermutationIsStorable(Offered(q, r), q);
  }

  lemma QueueGrows(fs: seq<Frame>, f: Frame)
    ensures Views(Values(fs + [f])) == Views(Values(fs)) + [f.Value().View()]
    ensures AllStorable(Values(fs)) && f.Value().Storable() ==> AllStorable(Values(fs + [f]))
  {
    ShownAppend(fs, f);
    ValuesAppend(fs, f);
  }

  /** What a flush of the frames offered comes to. */
  lemma FlushOfFrames(q: seq<CanFrame>, shown: seq<Wire>, sort: bool, limit: nat, o: seq<CanFrame>, k: nat,
                      left: seq<CanFrame>)
    requires AllStorable(q) && o == Offered(q, FrameRules(sort, limit)) && k == Cut(o, FrameRules(sort, limit))
    requires shown == Views(q) && left == Reverse(o[k..])
    ensures AllStorable(left) && Views(left) == Left(shown, WireRules(sort, limit))
    ensures Views(o[..k]) == Sent(shown, WireRules(sort, limit)) && |Sent(shown, WireRules(sort, limit))| == k
  {
    LeftIsStorable(q, FrameRules(sort, limit));
    FlushShows(q, sort, limit);
  }

  lemma {:induction false} CutIgnoresOrder<T>(q: seq<T>, r: Rules<T>, r': Rules<T>, cursor: nat)
    requires r' == r.(sort := r'.sort)
    ensures CutFrom(q, r, cursor) == CutFrom(q, r', cursor)
  {
    if q != [] {
      CutIgnoresOrder(q[1..], r, r', cursor + r.wire(q[0]));
    }
  }

  class UdpThread {
    const frameBuffer: FrameBuffer
    const transmitTimer: Timer
    const sort: bool
    const payloadSize: uint16
    const timeout: nat
    const timeoutTable: map<uint32, nat>
    var sequenceNumber: uint8
    var txCount: nat
    /** The socket: every packet handed to it. */
    var packets: seq<seq<uint8>>

    ghost function Queue(): seq<CanFrame>
      reads this, frameBuffer, frameBuffer.buffer
    {
      Values(frameBuffer.buffer)
    }

    /** The queue as the other end will see it. */
    ghost function Shown(): seq<Wire>
      reads this, frameBuffer, frameBuffer.buffer
    {
      Views(Queue())
    }

    ghost predicate Valid()
      reads this, frameBuffer, frameBuffer.buffer, transmitTimer
    {
      && frameBuffer.Valid() && frameBuffer.Idle()
      && transmitTimer.Valid()
      && AllStorable(Queue())
      && PACKET_BASE_SIZE <= payloadSize
    }

    function FlushRules(): Rules<Wire> { WireRules(sort, payloadSize) }

    /** The frame's own timeout; the general one stands in where the table has no entry. */
    function Entry(id: uint32): nat {
      if MaskedId(id) in timeoutTable then timeoutTable[MaskedId(id)] else timeout
    }

    /** What the thread promises its queue. */
    ghost function Plan(): Deadlines.Plan<Wire> {
      Deadlines.Plan(FlushRules(), FRAME_BASE_SIZE, timeout, (w: Wire) => Entry(w.id))
    }

    constructor (fb: FrameBuffer, sort: bool, payloadSize: uint16, timeout: nat, table: map<uint32, nat>)
      requires fb.Valid() && fb.Idle() && fb.buffer == [] && PACKET_BASE_SIZE <= payloadSize
      ensures Valid() && frameBuffer == fb && fresh(transmitTimer)
      ensures this.sort == sort && this.payloadSize == payloadSize && this.timeout == timeout && timeoutTable == table
      ensures packets == [] && sequenceNumber == 0 && txCount == 0
      ensures transmitTimer.State() == Adjusted(timeout, timeout)
    {
      frameBuffer := fb;
      this.sort, this.payloadSize, this.timeout, timeoutTable := sort, payloadSize, timeout, table;
      transmitTimer := new Timer();
      sequenceNumber, txCount, packets := 0, 0, [];
      new;
      transmitTimer.Adjust(timeout, timeout);
    }

    /** Queues a frame and sees to it that the timer expires in time. */
    method TransmitFrame(frame: Frame)
      requires Valid() && frame in frameBuffer.loaned && frame.Value().Storable()
      modifies frameBuffer`buffer, frameBuffer`bufferSize, frameBuffer`loaned, transmitTimer
      ensures Valid() && frameBuffer.loaned == old(frameBuffer.loaned) - {frame}
      ensures frameBuffer.buffer == old(frameBuffer.buffer) + [frame]
      ensures Shown() == old(Shown()) + [frame.Value().View()]
      ensures transmitTimer.State() == Deadlines.Rearm(old(transmitTimer.State()),
                Full(Shown(), FlushRules(), FRAME_BASE_SIZE), Entry(frame.id), timeout)
      ensures Rearmed(old(transmitTimer.State()), transmitTimer.State(), frameBuffer.bufferSize, frame.id)
    {
      QueueGrows(frameBuffer.buffer, frame);
      frameBuffer.InsertFrame(frame);
      FullByBytes(frameBuffer.buffer, sort, payloadSize);
      var full := frameBuffer.bufferSize + PACKET_BASE_SIZE + FRAME_BASE_SIZE >= payloadSize;
      ghost var t := transmitTimer.State();
      RearmTimer(full, frame.id);
      RearmIsRearmed(t, full, frameBuffer.bufferSize, frame.id);
    }

    /** What an insertion has to make of the timer, in nanoseconds. If no more than five bytes of the
        packet are left it is to expire in a microsecond. Otherwise the time left, or the whole
        interval if the timer reads as off, is cut down to the frame's entry in the table if that is
        shorter, and else kept. */
    ghost predicate Rearmed(t: TimerState, t': TimerState, bytes: nat, id: uint32) {
      var left := if t.value >= 1000 then t.value else t.interval;
      if bytes + 10 >= payloadSize then t'.value == 1000
      else if MaskedId(id) in timeoutTable && timeoutTable[MaskedId(id)] < timeout
              && 1000 * (timeoutTable[MaskedId(id)] + 1) <= left
      then
        var own := timeoutTable[MaskedId(id)];
        t'.value == (if own == 0 then 1000 else 1000 * own) && t'.interval == 1000 * timeout
      else t' == TimerState(t.interval, left)
    }

    lemma RearmIsRearmed(t: TimerState, full: bool, bytes: nat, id: uint32)
      requires full <==> bytes + 10 >= payloadSize
      ensures Rearmed(t, Deadlines.Rearm(t, full, Entry(id), timeout), bytes, id)
    {
    }

    static lemma FullByBytes(fs: seq<Frame>, sort: bool, limit: nat)
      ensures Full(Views(Values(fs)), WireRules(sort, limit), FRAME_BASE_SIZE)
         <==> Bytes(fs) + PACKET_BASE_SIZE + FRAME_BASE_SIZE >= limit
    {
      BytesIsSum(fs);
      SumShows(Values(fs));
    }

    method RearmTimer(full: bool, id: uint32)
      requires transmitTimer.Valid()
      modifies transmitTimer
      ensures transmitTimer.Valid()
      ensures transmitTimer.State() == Deadlines.Rearm(old(transmitTimer.State()), full, Entry(id), timeout)
    {
      var on := transmitTimer.IsOn();
      if !on {
        transmitTimer.Enable();
      }
      if full {
        transmitTimer.Fire();
      } else if MaskedId(id) in timeoutTable {
        var own := timeoutTable[MaskedId(id)];
        if own < timeout {
          var left := transmitTimer.GetValue();
          if own < left {
            transmitTimer.Adjust(timeout, own);
          }
        }
      }
    }

    /** The timer's handler: a non-empty queue is flushed, an empty one turns the timer off. */
    method OnTransmitTimer(expirations: nat, transmitted: bool)
      requires Valid()
      modifies frameBuffer`framePool, frameBuffer`buffer, frameBuffer`bufferSize, frameBuffer`loaned,
               frameBuffer`intermediateBuffer, frameBuffer`intermediateBufferSize,
               `sequenceNumber, `txCount, `packets, transmitTimer`value
      ensures Valid() && frameBuffer.loaned == old(frameBuffer.loaned)
      ensures expirations == 0 || old(Shown()) == [] ==>
                Shown() == old(Shown()) && packets == old(packets) && frameBuffer.Free() == old(frameBuffer.Free())
      ensures expirations > 0 && old(Shown()) != [] ==>
                && Shown() == Left(old(Shown()), FlushRules())
                && frameBuffer.Free() == Freed(old(frameBuffer.Free()), |Sent(old(Shown()), FlushRules())|)
                && |Sent(old(Shown()), FlushRules())| < 0x1_0000
                && packets == old(packets)
                     + [EncodePacket(Sent(old(Shown()), FlushRules()), old(sequenceNumber))]
      ensures sequenceNumber == if expirations > 0 && old(Shown()) != []
                then (old(sequenceNumber) + 1) % 0x100 else old(sequenceNumber)
      ensures transmitTimer.State() == if expirations > 0 && old(Shown()) == []
                then old(transmitTimer.State()).(value := 0) else old(transmitTimer.State())
    {
      if expirations > 0 {
        BytesIsSum(frameBuffer.buffer);
        if frameBuffer.bufferSize > 0 {
          PrepareBuffer(transmitted);
        } else {
          transmitTimer.Disable();
        }
      }
    }

    /** One flush: the queue is exchanged with the empty intermediate list, packed, and what
        does not fit comes back. `transmitted` is whether the socket took the whole packet. */
    method PrepareBuffer(transmitted: bool)
      requires Valid()
      modifies frameBuffer`framePool, frameBuffer`buffer, frameBuffer`bufferSize, frameBuffer`loaned,
               frameBuffer`intermediateBuffer, frameBuffer`intermediateBufferSize,
               `sequenceNumber, `txCount, `packets
      ensures Valid() && frameBuffer.loaned == old(frameBuffer.loaned)
      ensures Shown() == Left(old(Shown()), FlushRules())
      ensures |Sent(old(Shown()), FlushRules())| < 0x1_0000
      ensures packets == old(packets)
                + [EncodePacket(Sent(old(Shown()), FlushRules()), old(sequenceNumber))]
      ensures sequenceNumber == (old(sequenceNumber) + 1) % 0x100
      ensures txCount == old(txCount) + (if transmitted then 1 else 0)
      ensures frameBuffer.Free() == Freed(old(frameBuffer.Free()), |Sent(old(Shown()), FlushRules())|)
    {
      ghost var q, shown := Queue(), Shown();
      ghost var o := OfferQueue();
      ghost var k := FlushIntermediate(o, transmitted);
      FlushOfFrames(q, shown, sort, payloadSize, o, k, Queue());
    }

    method FlushIntermediate(ghost o: seq<CanFrame>, transmitted: bool) returns (ghost k: nat)
      requires frameBuffer.Valid() && frameBuffer.buffer == [] && PACKET_BASE_SIZE <= payloadSize
      requires o == Values(frameBuffer.intermediateBuffer) && AllStorable(o)
      modifies frameBuffer`framePool, frameBuffer`buffer, frameBuffer`bufferSize, frameBuffer`loaned,
               frameBuffer`intermediateBuffer, frameBuffer`intermediateBufferSize,
               `sequenceNumber, `txCount, `packets
      ensures frameBuffer.Valid() && frameBuffer.Idle() && frameBuffer.loaned == old(frameBuffer.loaned)
      ensures k == Cut(o, FrameRules(sort, payloadSize)) < 0x1_0000
      ensures Queue() == Reverse(o[k..])
      ensures packets == old(packets) + [EncodePacket(Views(o[..k]), old(sequenceNumber))]
      ensures frameBuffer.Free() == Freed(old(frameBuffer.Free()), k)
      ensures sequenceNumber == (old(sequenceNumber) + 1) % 0x100
      ensures txCount == old(txCount) + (if transmitted then 1 else 0)
    {
      var sent := SendPacket(o, transmitted);
      k := sent;
      EndFlush(sent, o);
    }

    /** A frame that was not queued becomes free. */
    method Drop(frame: Frame)
      requires Valid() && frame in frameBuffer.loaned
      modifies frameBuffer`framePool, frameBuffer`loaned
      ensures Valid() && Shown() == old(Shown())
      ensures frameBuffer.framePool == old(frameBuffer.framePool) + [frame]
      ensures frameBuffer.loaned == old(frameBuffer.loaned) - {frame}
      ensures frameBuffer.Free() == Freed(old(frameBuffer.Free()), 1)
    {
      frameBuffer.InsertFramePool(frame);
    }

    /** Everything queued becomes free. */
    method Clear()
      requires Valid()
      modifies frameBuffer
      ensures Valid() && Shown() == [] && frameBuffer.loaned == old(frameBuffer.loaned)
      ensures frameBuffer.frames == old(frameBuffer.frames)
      ensures frameBuffer.totalAllocCount == old(frameBuffer.totalAllocCount)
      ensures frameBuffer.framePool == old(frameBuffer.framePool) + old(frameBuffer.buffer)
      ensures frameBuffer.Free() == Freed(old(frameBuffer.Free()), |old(Shown())|)
    {
      assert frameBuffer.framePool + [] == frameBuffer.framePool;
      frameBuffer.Reset();
    }

    /** The queue becomes the intermediate list, sorted if asked for. */
    method OfferQueue() returns (ghost o: seq<CanFrame>)
      requires Valid()
      modifies frameBuffer`buffer, frameBuffer`bufferSize,
               frameBuffer`intermediateBuffer, frameBuffer`intermediateBufferSize
      ensures frameBuffer.Valid() && frameBuffer.buffer == []
      ensures o == Offered(old(Queue()), FrameRules(sort, payloadSize)) && AllStorable(o)
      ensures Values(frameBuffer.intermediateBuffer) == o
    {
      o := Offered(Queue(), FrameRules(sort, payloadSize));
      OfferedIsStorable(Queue(), FrameRules(sort, payloadSize));
      frameBuffer.SwapBuffers();
      if sort {
        frameBuffer.SortIntermediateBuffer();
      }
    }

    /** Packs and sends the intermediate list; returns how many of its frames went out. */
    method SendPacket(ghost offered: seq<CanFrame>, transmitted: bool) returns (sent: nat)
      requires PACKET_BASE_SIZE <= payloadSize
      requires Values(frameBuffer.intermediateBuffer) == offered && AllStorable(offered)
      modifies `sequenceNumber, `txCount, `packets
      ensures sent == Cut(offered, FrameRules(sort, payloadSize)) < 0x1_0000
      ensures packets == old(packets) + [EncodePacket(Views(offered[..sent]), old(sequenceNumber))]
      ensures Packed(packets[|old(packets)|], offered, sent, payloadSize, old(sequenceNumber))
      ensures sequenceNumber == (old(sequenceNumber) + 1) % 0x100
      ensures txCount == old(txCount) + (if transmitted then 1 else 0)
    {
      var packet := new uint8[payloadSize];
      var end;
      end, sent := BuildPacket(payloadSize, packet, frameBuffer.intermediateBuffer, sequenceNumber);
      CutIgnoresOrder(offered, FrameRules(false, payloadSize), FrameRules(sort, payloadSize), PACKET_BASE_SIZE);
      sequenceNumber := (sequenceNumber + 1) % 0x100;
      packets := packets + [packet[..end]];
      if transmitted {
        txCount := txCount + 1;
      }
    }

    /** What was not sent goes back to the queue, what was sent becomes free. */
    method EndFlush(sent: nat, ghost o: seq<CanFrame>)
      requires frameBuffer.Valid() && frameBuffer.buffer == [] && sent <= |frameBuffer.intermediateBuffer|
      requires o == Values(frameBuffer.intermediateBuffer)
      modifies frameBuffer`buffer, frameBuffer`bufferSize, frameBuffer`loaned, frameBuffer`framePool,
               frameBuffer`intermediateBuffer, frameBuffer`intermediateBufferSize
      ensures frameBuffer.Valid() && frameBuffer.Idle() && frameBuffer.loaned == old(frameBuffer.loaned)
      ensures Queue() == Reverse(o[sent..])
      ensures |frameBuffer.framePool| == |old(frameBuffer.framePool)| + sent
    {
      ghost var rest := frameBuffer.intermediateBuffer[sent..];
      ValuesSplit(frameBuffer.intermediateBuffer, sent);
      ValuesReverse(rest);
      assert Reverse(rest) + [] == Reverse(rest);
      if sent < |frameBuffer.intermediateBuffer| {
        frameBuffer.ReturnIntermediateBuffer(sent);
      }
      frameBuffer.MergeIntermediateBuffer();
    }

    static lemma {:induction false} ValuesReverse(fs: seq<Frame>)
      ensures Values(Reverse(fs)) == Reverse(Values(fs))
    {
      if fs != [] {
        ValuesReverse(fs[1..]);
        ValuesAppend(Reverse(fs[1..]), fs[0]);
      }
    }
  }
}
