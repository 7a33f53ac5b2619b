/**
 The CAN thread's reading side: a frame is taken from the network side's buffer, filled by the
 CAN socket, marked as classic or CAN FD by the number of bytes read, and queued there. What
 the read returned is a parameter.
 */
module CanReaders {
  import opened Can
  import opened FrameBuffers
  import opened Inbox
  import Receiver
  import opened Timers
  import opened UdpThreads
  import Deadlines
  import Packing

  lemma ClearedIsStorable(fs: seq<Frame>, c: Capacity)
    requires !Stuck(fs, c) && AllStorable(Values(fs))
    ensures AllStorable(Values(Cleared(fs, c)))
  {
    if c == Room(0) {
      ValuesSplit(fs, |fs| - 1);
    }
  }

  /** What a complete read stores. */
  method Fill(frame: Frame, read: Read)
    requires read.Complete() && read.Sane()
    modifies frame
    ensures frame.id == read.id && frame.flags == read.flags
    ensures frame.len == (if read.size == 72 then 0x80 else 0) + read.len % 0x80
    ensures |read.data| == read.size - 8 && frame.data == read.data + old(frame.data)[read.size - 8..]
    ensures frame.Value().View() == read.Image() && frame.Value().Storable()
  {
    frame.id, frame.flags := read.id, read.flags;
    frame.data := read.data + frame.data[|read.data|..];
    frame.len := Marked(read.len, read.size == CANFD_MTU);
    ghost var n := DataCount(read.id, frame.len);
    assert frame.data[..n] == read.data[..n];
  }

  /** Takes a frame from the network side's buffer, the newest queued one if there is no other. */
  method TakeFrame(net: UdpThread) returns (frame: Frame?)
    requires net.Valid() && net.frameBuffer.totalAllocCount > 0
    modifies net.frameBuffer
    ensures net.Valid() && net.frameBuffer.totalAllocCount > 0
    ensures old(net.frameBuffer.frames) <= net.frameBuffer.frames
    ensures fresh(net.frameBuffer.frames - old(net.frameBuffer.frames))
    ensures net.frameBuffer.Free() == Used(old(net.frameBuffer.Free()), 1)
    ensures frame == null <==> Stuck(old(net.Shown()), old(net.frameBuffer.Free()))
    ensures frame == null ==> net.Shown() == old(net.Shown()) && net.frameBuffer.loaned == old(net.frameBuffer.loaned)
    ensures frame != null ==>
              && net.Shown() == Cleared(old(net.Shown()), old(net.frameBuffer.Free()))
              && frame in net.frameBuffer.frames && frame !in net.frameBuffer.buffer
              && frame !in old(net.frameBuffer.loaned)
              && net.frameBuffer.loaned == old(net.frameBuffer.loaned) + {frame}
  {
    ghost var fs, c := net.frameBuffer.buffer, net.frameBuffer.Free();
    if !Stuck(fs, c) {
      ClearedIsStorable(fs, c);
    }
    frame := Receiver.ObtainFrame(net.frameBuffer);
  }

  /** What a read makes of a queue: a frame is taken for it, and a complete one is appended. */
  function QueueAfterRead(q: seq<Wire>, c: Capacity, read: Read): seq<Wire>
    requires read.Sane()
  {
    if Stuck(q, c) then q
    else if read.Complete() then Cleared(q, c) + [read.Image()]
    else Cleared(q, c)
  }

  /** What a read makes of the room: only a failed one gives its frame back. */
  function RoomAfterRead(q: seq<Wire>, c: Capacity, read: Read): Capacity {
    if Stuck(q, c) then c else if read.Failed? then Freed(Used(c, 1), 1) else Used(c, 1)
  }

  class CanReader {
    const peer: UdpThread
    var rxCount: nat

    constructor (peer: UdpThread)
      ensures this.peer == peer && rxCount == 0
    {
      this.peer, rxCount := peer, 0;
    }

    /** Stores a complete read and passes the frame on. */
    method PassOn(frame: Frame, read: Read)
      requires peer.Valid() && frame in peer.frameBuffer.loaned && frame !in peer.frameBuffer.buffer
      requires read.Complete() && read.Sane()
      modifies frame, peer.frameBuffer`buffer, peer.frameBuffer`bufferSize, peer.frameBuffer`loaned,
               peer.transmitTimer, `rxCount
      ensures peer.Valid() && peer.frameBuffer.loaned == old(peer.frameBuffer.loaned) - {frame}
      ensures peer.Shown() == old(peer.Shown()) + [read.Image()]
      ensures peer.transmitTimer.State() == Deadlines.Rearm(old(peer.transmitTimer.State()),
                Packing.Full(peer.Shown(), peer.FlushRules(), FRAME_BASE_SIZE), peer.Entry(read.id), peer.timeout)
      ensures rxCount == old(rxCount) + 1
    {
      Fill(frame, read);
      rxCount := rxCount + 1;
      peer.TransmitFrame(frame);
    }

    /** One read. A full buffer gives up its newest queued frame for it, also when the read
        fails; a read of any other size keeps the frame out of circulation for good. */
    method Receive(read: Read)
      requires peer.Valid() && peer.frameBuffer.totalAllocCount > 0 && read.Sane()
      modifies peer.frameBuffer, peer.frameBuffer.frames, peer.transmitTimer, `rxCount
      ensures peer.Valid() && peer.frameBuffer.totalAllocCount > 0
      ensures old(peer.frameBuffer.frames) <= peer.frameBuffer.frames
      ensures fresh(peer.frameBuffer.frames - old(peer.frameBuffer.frames))
      ensures peer.Shown() == QueueAfterRead(old(peer.Shown()), old(peer.frameBuffer.Free()), read)
      ensures peer.frameBuffer.Free() == RoomAfterRead(old(peer.Shown()), old(peer.frameBuffer.Free()), read)
      ensures var passed := read.Complete() && !Stuck(old(peer.Shown()), old(peer.frameBuffer.Free()));
              && peer.transmitTimer.State() == (if !passed then old(peer.transmitTimer.State())
                   else Deadlines.Rearm(old(peer.transmitTimer.State()),
                          Packing.Full(peer.Shown(), peer.FlushRules(), FRAME_BASE_SIZE),
                          peer.Entry(read.id), peer.timeout))
              && rxCount == old(rxCount) + (if passed then 1 else 0)
      ensures if Stuck(old(peer.Shown()), old(peer.frameBuffer.Free())) || read.Failed? || read.Complete()
              then peer.frameBuffer.loaned == old(peer.frameBuffer.loaned)
              else old(peer.frameBuffer.loaned) < peer.frameBuffer.loaned
    {
      var frame := TakeFrame(peer);
      if frame == null {
        return;
      }
      if read.Failed? {
        peer.Drop(frame);
      } else if read.Complete() {
        PassOn(frame, read);
      }
    }
  }
}
