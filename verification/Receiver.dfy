/**
 Receiving packets: their frames go one by one into the CAN side's queue. Parsing a packet
 stops at the first failure; what was delivered before stays.
 */
module Receiver {
  import opened Can
  import opened CanThreads
  import opened Codec
  import opened FrameBuffers
  import opened Inbox
  import opened Parser
  import opened Timers
  import Ledger

  /** The CAN side's queue as its peer sees it. */
  ghost function Received(fb: FrameBuffer): seq<Wire>
    reads fb, fb.buffer
  {
    Views(Values(fb.buffer))
  }

  lemma ReceivedCleared(fs: seq<Frame>, c: Capacity)
    requires !Stuck(fs, c)
    ensures Views(Values(Cleared(fs, c))) == Cleared(Views(Values(fs)), c)
  {
    if c == Room(0) {
      var n := |fs| - 1;
      assert fs == fs[..n] + [fs[n]];
      ShownAppend(fs[..n], fs[n]);
    }
  }

  /** The allocator: a free frame, or the newest queued one. */
  method ObtainFrame(fb: FrameBuffer) returns (frame: Frame?)
    requires fb.Valid() && fb.totalAllocCount > 0
    modifies fb`framePool, fb`buffer, fb`bufferSize, fb`totalAllocCount, fb`growths, fb`frames, fb`loaned
    ensures fb.Valid() && fb.totalAllocCount > 0
    ensures old(fb.frames) <= fb.frames && fresh(fb.frames - old(fb.frames))
    ensures frame == null <==> Stuck(old(fb.buffer), old(fb.Free()))
    ensures fb.buffer == if frame == null then old(fb.buffer) else Cleared(old(fb.buffer), old(fb.Free()))
    ensures Received(fb) == if frame == null then old(Received(fb)) else Cleared(old(Received(fb)), old(fb.Free()))
    ensures fb.Free() == Used(old(fb.Free()), 1)
    ensures frame == null ==> fb.loaned == old(fb.loaned)
    ensures frame != null ==>
              && frame in fb.frames && frame !in fb.buffer
              && frame !in old(fb.loaned) && fb.loaned == old(fb.loaned) + {frame}
  {
    ghost var fs, c := fb.buffer, fb.Free();
    if !Stuck(fs, c) {
      ReceivedCleared(fs, c);
    }
    frame := fb.RequestFrame(true);
    if frame != null {
      var f: Frame := frame;
      Ledger.NotQueued(fb.framePool, fb.buffer, fb.intermediateBuffer, fb.loaned, fb.frames, f);
      assert old(fb.Free()) == Room(0) ==> old(fb.buffer)[..|fb.buffer|] == fb.buffer;
    }
  }

  /** The timer of a writer that has been woken. */
  ghost function Woken(): TimerState { TimerState(2_000_000_000, 1000) }

  /** What a step of the receiver does to the loans: nothing, unless the program left its arrays
      with the frame in its hands. */
  ghost predicate Lent(before: set<Frame>, after: set<Frame>, outcome: Outcome) {
    if outcome == NotDefined then before < after else after == before
  }

  /** What one frame of a packet makes of a queue and its room. */
  ghost predicate OneStep(step: Codec.Step, q: seq<Wire>, c: Capacity, outcome: Outcome, next: nat,
                          q': seq<Wire>, c': Capacity) {
    if Stuck(q, c) then outcome == AllocationError && q' == q && c' == c
    else
      && outcome == Ending(step)
      && (outcome == Completed ==> next == step.next && q' == Cleared(q, c) + [step.wire] && c' == Used(c, 1))
      && (outcome == Corrupt ==> q' == Cleared(q, c) && c' == Freed(Used(c, 1), 1))
      && (outcome == NotDefined ==> q' == Cleared(q, c) && c' == Used(c, 1))
  }

  /** One frame of a packet: a frame is obtained from the CAN side's buffer, filled and queued
      there; a frame that turns out cut off becomes free. */
  method ReceiveOne(buffer: array<uint8>, len: uint16, pos: nat, peer: CanThread, ghost read: Reader)
    returns (outcome: Outcome, next: nat)
    requires peer.Valid() && peer.frameBuffer.totalAllocCount > 0
    requires len <= buffer.Length && Reads(read, buffer[..], len) && !read(pos).Short?
    modifies peer.frameBuffer, peer.frameBuffer.frames, peer.timer
    ensures peer.Valid() && peer.frameBuffer.totalAllocCount > 0
    ensures old(peer.frameBuffer.frames) <= peer.frameBuffer.frames
    ensures fresh(peer.frameBuffer.frames - old(peer.frameBuffer.frames))
    ensures Lent(old(peer.frameBuffer.loaned), peer.frameBuffer.loaned, outcome)
    ensures peer.timer.State() == if outcome == Completed then Woken() else old(peer.timer.State())
    ensures OneStep(read(pos), old(Received(peer.frameBuffer)), old(peer.frameBuffer.Free()), outcome, next,
                    Received(peer.frameBuffer), peer.frameBuffer.Free())
  {
    next := pos;
    var frame := ObtainFrame(peer.frameBuffer);
    if frame == null {
      return AllocationError, next;
    }
    outcome, next := Deliver(buffer, len, pos, frame, peer, read);
  }

  /** Fills a frame and hands it to the receiver, which queues a good frame and gives a cut-off
      one back to the pool. */
  method Deliver(buffer: array<uint8>, len: uint16, pos: nat, frame: Frame, peer: CanThread, ghost read: Reader)
    returns (ending: Outcome, next: nat)
    requires peer.Valid() && frame in peer.frameBuffer.loaned && frame !in peer.frameBuffer.buffer
    requires len <= buffer.Length && Reads(read, buffer[..], len) && !read(pos).Short?
    modifies peer.frameBuffer`framePool, peer.frameBuffer`buffer, peer.frameBuffer`bufferSize,
             peer.frameBuffer`loaned, frame, peer.timer
    ensures peer.Valid() && ending == Ending(read(pos))
    ensures peer.frameBuffer.loaned
         == if ending == NotDefined then old(peer.frameBuffer.loaned) else old(peer.frameBuffer.loaned) - {frame}
    ensures peer.frameBuffer.Free()
         == if ending == Corrupt then Freed(old(peer.frameBuffer.Free()), 1) else old(peer.frameBuffer.Free())
    ensures peer.frameBuffer.framePool
         == if ending == Corrupt then old(peer.frameBuffer.framePool) + [frame] else old(peer.frameBuffer.framePool)
    ensures ending == Completed ==>
              next == read(pos).next
              && Received(peer.frameBuffer) == old(Received(peer.frameBuffer)) + [read(pos).wire]
    ensures ending != Completed ==> Received(peer.frameBuffer) == old(Received(peer.frameBuffer))
    ensures peer.timer.State() == if ending == Completed then Woken() else old(peer.timer.State())
  {
    ending, next := ReadFrame(buffer, len, pos, frame, read);
    if ending == Completed {
      Accept(frame, peer);
    } else if ending == Corrupt {
      peer.frameBuffer.InsertFramePool(frame);
    }
  }

  /** The receiver's good case. */
  method Accept(frame: Frame, peer: CanThread)
    requires peer.Valid() && frame in peer.frameBuffer.loaned
    modifies peer.frameBuffer`buffer, peer.frameBuffer`bufferSize, peer.frameBuffer`loaned, peer.timer
    ensures peer.Valid() && peer.frameBuffer.loaned == old(peer.frameBuffer.loaned) - {frame}
    ensures Received(peer.frameBuffer) == old(Received(peer.frameBuffer)) + [frame.Value().View()]
    ensures peer.timer.State() == Woken()
  {
    ShownAppend(peer.frameBuffer.buffer, frame);
    peer.TransmitFrame(frame);
  }

  // ----- A packet

  /** How many frames the buffer hands out to a packet, of whatever length: if it has a first
      one, it always has a next one. */
  function Grants(q: seq<Wire>, c: Capacity): nat {
    if Stuck(q, c) then 0 else 0x1_0000
  }

  /** The queue after a packet that parsed to `r`. */
  function Absorbed(q: seq<Wire>, c: Capacity, r: Parsed): seq<Wire> {
    if Stuck(q, c) then q
    else
      var all := BoundedAppend(q, c, r.frames);
      NeverStuckAgain(q, c, r.frames);
      if r.outcome == Corrupt || r.outcome == NotDefined then Cleared(all, Used(c, |r.frames|)) else all
  }

  /** The room after it: a frame that was cut off is free again, even if it came out of a full
      queue. */
  function RoomAfter(q: seq<Wire>, c: Capacity, r: Parsed): Capacity {
    var rest := Used(c, |r.frames|);
    if Stuck(q, c) then c
    else if r.outcome == Corrupt then Freed(Used(rest, 1), 1)
    else if r.outcome == NotDefined then Used(rest, 1)
    else rest
  }

  /** Bounded queue: a packet's good frames are appended to the CAN side's queue while there is
      room; past that each takes the newest frame's place, so that of the rest only the last
      survives. A frame that is cut off costs a full queue its newest frame. With neither room
      nor a queued frame the packet is given up. */
  method ParsePacket(buffer: array<uint8>, len: uint16, peer: CanThread) returns (outcome: Outcome)
    requires PACKET_BASE_SIZE <= buffer.Length && len <= buffer.Length
    requires peer.Valid() && peer.frameBuffer.totalAllocCount > 0
    modifies peer.frameBuffer, peer.frameBuffer.frames, peer.timer
    ensures peer.Valid() && peer.frameBuffer.totalAllocCount > 0
    ensures old(peer.frameBuffer.frames) <= peer.frameBuffer.frames
    ensures fresh(peer.frameBuffer.frames - old(peer.frameBuffer.frames))
    ensures Lent(old(peer.frameBuffer.loaned), peer.frameBuffer.loaned, outcome)
    ensures var q, c, b := old(Received(peer.frameBuffer)), old(peer.frameBuffer.Free()), old(buffer[..]);
            var r := Parse(b, len, Grants(q, c));
            && outcome == r.outcome
            && Received(peer.frameBuffer) == Absorbed(q, c, r)
            && peer.frameBuffer.Free() == RoomAfter(q, c, r)
            && peer.timer.State() == (if r.frames == [] then old(peer.timer.State()) else Woken())
  {
    if buffer[0] != FRAME_VERSION {
      return WrongVersion;
    }
    if buffer[1] != OP_DATA {
      return WrongOpCode;
    }
    ghost var read := ReaderOf(buffer[..], len);
    ghost var q, c := Received(peer.frameBuffer), peer.frameBuffer.Free();
    ghost var s := Course(q, c, Count(buffer[..]));
    ProgressStarts(q, c);
    outcome := ReceiveFrames(buffer, len, Count(buffer[..]), peer, read, s);
  }

  /** The queue and the room after `done` arrivals. */
  ghost predicate Progress(q: seq<Wire>, c: Capacity, done: seq<Wire>, q': seq<Wire>, c': Capacity) {
    if Stuck(q, c) then done == [] && q' == q && c' == c
    else q' == BoundedAppend(q, c, done) && c' == Used(c, |done|)
  }

  lemma ProgressStarts(q: seq<Wire>, c: Capacity)
    ensures Progress(q, c, [], q, c)
  {
  }

  lemma ProgressNext(q: seq<Wire>, c: Capacity, done: seq<Wire>, q': seq<Wire>, c': Capacity, w: Wire)
    requires Progress(q, c, done, q', c') && !Stuck(q', c')
    ensures Progress(q, c, done + [w], Cleared(q', c') + [w], Used(c', 1))
  {
    BoundedAppendNext(q, c, done, w);
  }

  lemma ProgressEnds(q: seq<Wire>, c: Capacity, done: seq<Wire>, q': seq<Wire>, c': Capacity, r: Parsed)
    requires Progress(q, c, done, q', c') && r.frames == done
    ensures Stuck(q', c') <==> Stuck(q, c)
    ensures Stuck(q, c) ==> Absorbed(q, c, r) == q' && RoomAfter(q, c, r) == c'
    ensures !Stuck(q, c) && r.outcome != Corrupt && r.outcome != NotDefined ==>
              Absorbed(q, c, r) == q' && RoomAfter(q, c, r) == c'
    ensures !Stuck(q, c) && r.outcome == Corrupt ==>
              Absorbed(q, c, r) == Cleared(q', c') && RoomAfter(q, c, r) == Freed(Used(c', 1), 1)
    ensures !Stuck(q, c) && r.outcome == NotDefined ==>
              Absorbed(q, c, r) == Cleared(q', c') && RoomAfter(q, c, r) == Used(c', 1)
  {
    if !Stuck(q, c) {
      NeverStuckAgain(q, c, done);
    }
  }

  /** Where the parser's loop comes from: the queue, its room and the announced frames. */
  datatype Course = Course(q: seq<Wire>, c: Capacity, count: uint16)

  ghost function Goal(read: Reader, s: Course): Parsed {
    ParseFrom(read, PACKET_BASE_SIZE, s.count, Grants(s.q, s.c))
  }

  ghost predicate Arrived(s: Course, r: Parsed, q: seq<Wire>, c: Capacity) {
    q == Absorbed(s.q, s.c, r) && c == RoomAfter(s.q, s.c, r)
  }

  /** With `done` delivered, queue `q` and room `c`, the loop has come to `pos`. */
  ghost predicate Heading(read: Reader, s: Course, pos: nat, done: seq<Wire>, q: seq<Wire>, c: Capacity) {
    && |done| <= s.count && (Stuck(s.q, s.c) ==> done == [])
    && Chain(read, PACKET_BASE_SIZE, done, pos)
    && Progress(s.q, s.c, done, q, c)
  }

  /** The loop stops where it is. */
  lemma Stops(read: Reader, s: Course, pos: nat, done: seq<Wire>, q: seq<Wire>, c: Capacity)
    requires Heading(read, s, pos, done, q, c)
    requires |done| == s.count || Stuck(s.q, s.c) || !read(pos).Got?
    ensures var r := Goal(read, s);
            && r.frames == done
            && r.outcome == (if |done| == s.count then Completed else if read(pos).Short? then Incomplete
                             else if Stuck(q, c) then AllocationError else Ending(read(pos)))
            && (|done| == s.count || read(pos).Short? || Stuck(q, c) ==> Arrived(s, r, q, c))
            && (|done| < s.count && !Stuck(q, c) && read(pos).Truncated? ==>
                  Arrived(s, r, Cleared(q, c), Freed(Used(c, 1), 1)))
            && (|done| < s.count && !Stuck(q, c) && read(pos).Undefined? ==>
                  Arrived(s, r, Cleared(q, c), Used(c, 1)))
  {
    ChainStops(read, PACKET_BASE_SIZE, s.count, Grants(s.q, s.c), done, pos);
    ProgressEnds(s.q, s.c, done, q, c, Goal(read, s));
  }

  /** One round of the loop. */
  lemma Round(read: Reader, s: Course, pos: nat, done: seq<Wire>, q: seq<Wire>, c: Capacity,
              outcome: Outcome, next: nat, q': seq<Wire>, c': Capacity)
    requires Heading(read, s, pos, done, q, c) && |done| < s.count && !read(pos).Short?
    requires OneStep(read(pos), q, c, outcome, next, q', c')
    ensures if outcome == Completed then Heading(read, s, next, done + [read(pos).wire], q', c')
            else var r := Goal(read, s);
                 outcome == r.outcome && r.frames == done && Arrived(s, r, q', c')
  {
    ProgressEnds(s.q, s.c, done, q, c, Parsed(done, pos, Completed));
    if outcome == Completed {
      ChainAppend(read, PACKET_BASE_SIZE, done, pos);
      ProgressNext(s.q, s.c, done, q, c, read(pos).wire);
    } else {
      Stops(read, s, pos, done, q, c);
    }
  }

  ghost predicate Receiving(peer: CanThread, read: Reader, s: Course, pos: nat, done: seq<Wire>)
    reads peer, peer.frameBuffer, peer.frameBuffer.buffer
  {
    && peer.Valid() && peer.frameBuffer.totalAllocCount > 0
    && Heading(read, s, pos, done, Received(peer.frameBuffer), peer.frameBuffer.Free())
  }

  /** One round of the parser's loop. */
  method ReceiveNext(buffer: array<uint8>, len: uint16, pos: nat, peer: CanThread,
                     ghost read: Reader, ghost s: Course, ghost done: seq<Wire>)
    returns (outcome: Outcome, next: nat, ghost done': seq<Wire>)
    requires len <= buffer.Length && Reads(read, buffer[..], len)
    requires |done| < s.count && Receiving(peer, read, s, pos, done)
    modifies peer.frameBuffer, peer.frameBuffer.frames, peer.timer
    ensures peer.Valid() && peer.frameBuffer.totalAllocCount > 0
    ensures old(peer.frameBuffer.frames) <= peer.frameBuffer.frames
    ensures fresh(peer.frameBuffer.frames - old(peer.frameBuffer.frames))
    ensures Lent(old(peer.frameBuffer.loaned), peer.frameBuffer.loaned, outcome)
    ensures peer.timer.State() == if outcome == Completed then Woken() else old(peer.timer.State())
    ensures outcome == Completed ==> Receiving(peer, read, s, next, done') && |done'| == |done| + 1
    ensures outcome != Completed ==>
              var r := Goal(read, s);
              && outcome == r.outcome && r.frames == done
              && Arrived(s, r, Received(peer.frameBuffer), peer.frameBuffer.Free())
  {
    done', next := done, pos;
    ghost var q, c := Received(peer.frameBuffer), peer.frameBuffer.Free();
    ShortRead(read, buffer[..], len, pos);
    if pos + FRAME_BASE_SIZE > len {
      Stops(read, s, pos, done, q, c);
      return Incomplete, next, done';
    }
    outcome, next := ReceiveOne(buffer, len, pos, peer, read);
    Round(read, s, pos, done, q, c, outcome, next, Received(peer.frameBuffer), peer.frameBuffer.Free());
    if outcome == Completed {
      done' := done + [read(pos).wire];
    }
  }

  /** The parser's loop. */
  method ReceiveFrames(buffer: array<uint8>, len: uint16, count: uint16, peer: CanThread,
                       ghost read: Reader, ghost s: Course)
    returns (outcome: Outcome)
    requires len <= buffer.Length && Reads(read, buffer[..], len) && s.count == count
    requires Receiving(peer, read, s, PACKET_BASE_SIZE, [])
    modifies peer.frameBuffer, peer.frameBuffer.frames, peer.timer
    ensures peer.Valid() && peer.frameBuffer.totalAllocCount > 0
    ensures old(peer.frameBuffer.frames) <= peer.frameBuffer.frames
    ensures fresh(peer.frameBuffer.frames - old(peer.frameBuffer.frames))
    ensures Lent(old(peer.frameBuffer.loaned), peer.frameBuffer.loaned, outcome)
    ensures var r := Goal(read, s);
            && outcome == r.outcome && Arrived(s, r, Received(peer.frameBuffer), peer.frameBuffer.Free())
            && peer.timer.State() == (if r.frames == [] then old(peer.timer.State()) else Woken())
  {
    ghost var done: seq<Wire> := [];
    var pos: nat := PACKET_BASE_SIZE;
    var i := 0;
    while i < count
      invariant 0 <= i <= count && |done| == i
      invariant old(peer.frameBuffer.frames) <= peer.frameBuffer.frames
      invariant fresh(peer.frameBuffer.frames - old(peer.frameBuffer.frames))
      invariant peer.frameBuffer.loaned == old(peer.frameBuffer.loaned)
      invariant peer.timer.State() == if i == 0 then old(peer.timer.State()) else Woken()
      invariant Receiving(peer, read, s, pos, done)
    {
      outcome, pos, done := ReceiveNext(buffer, len, pos, peer, read, s, done);
      if outcome != Completed {
        return;
      }
      i := i + 1;
    }
    Stops(read, s, pos, done, Received(peer.frameBuffer), peer.frameBuffer.Free());
    outcome := Completed;
  }

  // ----- Packet after packet

  const RECEIVE_BUFFER_SIZE := 1500

  /** The bytes of a datagram that a receive takes. */
  function Taken(d: seq<uint8>): (n: uint16)
    ensures n <= |d| && n <= RECEIVE_BUFFER_SIZE
    ensures n == |d| || n == 1500
  {
    if |d| <= RECEIVE_BUFFER_SIZE then |d| else RECEIVE_BUFFER_SIZE
  }

  /** The receive buffer: cleared, then filled. */
  function InBuffer(d: seq<uint8>): (b: seq<uint8>)
    ensures |b| == RECEIVE_BUFFER_SIZE && d[..Taken(d)] <= b
    ensures forall i :: |d| <= i < 1500 ==> b[i] == 0
  {
    d[..Taken(d)] + seq(RECEIVE_BUFFER_SIZE - Taken(d), _ => 0)
  }

  /** A receiving queue and its room. */
  datatype Box = Box(q: seq<Wire>, c: Capacity)

  /** What the receiver reads out of a datagram. */
  function Reading(box: Box, d: seq<uint8>): Parsed {
    Parse(InBuffer(d), Taken(d), Grants(box.q, box.c))
  }

  function Unpack(box: Box, d: seq<uint8>): Box {
    if d == [] then box
    else Box(Absorbed(box.q, box.c, Reading(box, d)), RoomAfter(box.q, box.c, Reading(box, d)))
  }

  predicate Astray(box: Box, d: seq<uint8>) { d != [] && Reading(box, d).outcome == NotDefined }

  /** Datagram after datagram, until the program leaves its arrays. */
  function Unpacked(box: Box, ds: seq<seq<uint8>>): Box
    decreases |ds|
  {
    if ds == [] then box
    else if Astray(box, ds[0]) then Unpack(box, ds[0])
    else Unpacked(Unpack(box, ds[0]), ds[1..])
  }

  /** Some datagram makes the program leave its arrays. */
  predicate GoesAstray(box: Box, ds: seq<seq<uint8>>)
    decreases |ds|
  {
    ds != [] && (Astray(box, ds[0]) || GoesAstray(Unpack(box, ds[0]), ds[1..]))
  }

  ghost function BoxOf(fb: FrameBuffer): Box
    reads fb, fb.buffer
  {
    Box(Received(fb), fb.Free())
  }

  /** One turn of the network thread: the buffer is cleared, filled and parsed. */
  method OnDatagram(buffer: array<uint8>, d: seq<uint8>, peer: CanThread) returns (astray: bool)
    requires buffer.Length == RECEIVE_BUFFER_SIZE
    requires peer.Valid() && peer.frameBuffer.totalAllocCount > 0
    modifies buffer, peer.frameBuffer, peer.frameBuffer.frames, peer.timer
    ensures peer.Valid() && peer.frameBuffer.totalAllocCount > 0
    ensures old(peer.frameBuffer.frames) <= peer.frameBuffer.frames
    ensures fresh(peer.frameBuffer.frames - old(peer.frameBuffer.frames))
    ensures astray == Astray(old(BoxOf(peer.frameBuffer)), d)
    ensures BoxOf(peer.frameBuffer) == Unpack(old(BoxOf(peer.frameBuffer)), d)
    ensures if astray then old(peer.frameBuffer.loaned) < peer.frameBuffer.loaned
            else peer.frameBuffer.loaned == old(peer.frameBuffer.loaned)
  {
    var len := Taken(d);
    forall i | 0 <= i < RECEIVE_BUFFER_SIZE {
      buffer[i] := if i < len then d[i] else 0;
    }
    assert buffer[..] == InBuffer(d);
    assert BoxOf(peer.frameBuffer) == old(BoxOf(peer.frameBuffer));
    if len == 0 {
      return false;
    }
    var outcome := ParsePacket(buffer, len, peer);
    astray := outcome == NotDefined;
  }

  /** After `i` of the datagrams the box is `box`, and what is still to come decides the rest. */
  ghost predicate Along(box0: Box, ds: seq<seq<uint8>>, i: nat, box: Box)
    requires i <= |ds|
  {
    && Unpacked(box0, ds) == Unpacked(box, ds[i..])
    && GoesAstray(box0, ds) == GoesAstray(box, ds[i..])
  }

  lemma AlongStarts(box: Box, ds: seq<seq<uint8>>)
    ensures Along(box, ds, 0, box)
  {
    assert ds[0..] == ds;
  }

  lemma AlongNext(box0: Box, ds: seq<seq<uint8>>, i: nat, box: Box)
    requires i < |ds| && Along(box0, ds, i, box)
    ensures if Astray(box, ds[i]) then GoesAstray(box0, ds) && Unpacked(box0, ds) == Unpack(box, ds[i])
            else Along(box0, ds, i + 1, Unpack(box, ds[i]))
  {
    assert ds[i..][0] == ds[i] && ds[i..][1..] == ds[i + 1..];
  }

  lemma AlongEnds(box0: Box, ds: seq<seq<uint8>>, box: Box)
    requires Along(box0, ds, |ds|, box)
    ensures Unpacked(box0, ds) == box && !GoesAstray(box0, ds)
  {
  }

  method ReceiveNth(buffer: array<uint8>, ds: seq<seq<uint8>>, i: nat, peer: CanThread, ghost box0: Box)
    returns (astray: bool)
    requires buffer.Length == RECEIVE_BUFFER_SIZE && i < |ds|
    requires peer.Valid() && peer.frameBuffer.totalAllocCount > 0 && Along(box0, ds, i, BoxOf(peer.frameBuffer))
    modifies buffer, peer.frameBuffer, peer.frameBuffer.frames, peer.timer
    ensures peer.Valid() && peer.frameBuffer.totalAllocCount > 0
    ensures old(peer.frameBuffer.frames) <= peer.frameBuffer.frames
    ensures fresh(peer.frameBuffer.frames - old(peer.frameBuffer.frames))
    ensures if astray
            then GoesAstray(box0, ds) && Unpacked(box0, ds) == BoxOf(peer.frameBuffer)
                 && old(peer.frameBuffer.loaned) < peer.frameBuffer.loaned
            else Along(box0, ds, i + 1, BoxOf(peer.frameBuffer))
                 && peer.frameBuffer.loaned == old(peer.frameBuffer.loaned)
  {
    AlongNext(box0, ds, i, BoxOf(peer.frameBuffer));
    astray := OnDatagram(buffer, ds[i], peer);
  }

  /** The receiving half at work: any datagrams, one after the other. `astray` is whether one of
      them makes the program leave its arrays; if none does, no frame stays on loan. */
  method ReceiveAll(buffer: array<uint8>, ds: seq<seq<uint8>>, peer: CanThread) returns (astray: bool)
    requires buffer.Length == RECEIVE_BUFFER_SIZE
    requires peer.Valid() && peer.frameBuffer.totalAllocCount > 0
    modifies buffer, peer.frameBuffer, peer.frameBuffer.frames, peer.timer
    ensures peer.Valid() && peer.frameBuffer.totalAllocCount > 0
    ensures old(peer.frameBuffer.frames) <= peer.frameBuffer.frames
    ensures fresh(peer.frameBuffer.frames - old(peer.frameBuffer.frames))
    ensures astray == GoesAstray(old(BoxOf(peer.frameBuffer)), ds)
    ensures BoxOf(peer.frameBuffer) == Unpacked(old(BoxOf(peer.frameBuffer)), ds)
    ensures if astray then old(peer.frameBuffer.loaned) < peer.frameBuffer.loaned
            else peer.frameBuffer.loaned == old(peer.frameBuffer.loaned)
  {
    ghost var box0 := BoxOf(peer.frameBuffer);
    AlongStarts(box0, ds);
    var i := 0;
    while i < |ds|
      invariant 0 <= i <= |ds|
      invariant peer.Valid() && peer.frameBuffer.totalAllocCount > 0
      invariant old(peer.frameBuffer.frames) <= peer.frameBuffer.frames
      invariant fresh(peer.frameBuffer.frames - old(peer.frameBuffer.frames))
      invariant peer.frameBuffer.loaned == old(peer.frameBuffer.loaned)
      invariant Along(box0, ds, i, BoxOf(peer.frameBuffer))
    {
      astray := ReceiveNth(buffer, ds, i, peer, box0);
      if astray {
        return;
      }
      i := i + 1;
    }
    AlongEnds(box0, ds, BoxOf(peer.frameBuffer));
    astray := false;
  }
}
