/**
 The packet printer and parser as the program runs them: a cursor moves through a byte array
 while frames are read from or written to in place. Each method is proved against the
 functions of `Codec`.
 */
module Parser {
  import opened Can
  import opened Codec
  import opened Format
  import opened Packing

  /** The array holds `bytes` at `at`. */
  ghost predicate Holds(a: array<uint8>, at: nat, bytes: seq<uint8>)
    reads a
  {
    at + |bytes| <= a.Length && forall k :: 0 <= k < |bytes| ==> a[at + k] == bytes[k]
  }

  /** Outside `from..to` the array is as it was. */
  twostate predicate SameOutside(a: array<uint8>, from: nat, to: nat)
    reads a
  {
    forall k :: 0 <= k < a.Length && !(from <= k < to) ==> a[k] == old(a[k])
  }

  /** The bytes of one frame. As with readers, naming the trigger keeps the encoding folded
      where only its length and place matter. */
  type Encoder = CanFrame -> seq<uint8>

  ghost predicate Encodes(enc: Encoder) {
    forall f: CanFrame {:trigger f.View()} :: enc(f) == EncodeFrame(f.View())
  }

  /** What the packer has written behind the header after `i` frames. */
  ghost function Written(enc: Encoder, fs: seq<CanFrame>, i: nat): seq<uint8>
    requires i <= |fs|
  {
    if i == 0 then [] else Written(enc, fs, i - 1) + enc(fs[i - 1])
  }

  /** None of the first `i` frames made the packer stop. */
  ghost predicate Passed(enc: Encoder, fs: seq<CanFrame>, i: nat, limit: nat)
    requires i <= |fs|
  {
    i == 0 || (Passed(enc, fs, i - 1, limit)
               && PACKET_BASE_SIZE + |Written(enc, fs, i - 1)| + fs[i - 1].SlotSize() <= limit)
  }

  lemma {:induction false} WrittenIsEncoding(enc: Encoder, fs: seq<CanFrame>, i: nat)
    requires i <= |fs| && Encodes(enc)
    ensures Written(enc, fs, i) == EncodeFrames(Views(fs[..i]))
  {
    if i > 0 {
      WrittenIsEncoding(enc, fs, i - 1);
      ViewsPrefix(fs, i - 1);
      EncodeAppend(Views(fs[..i - 1]), fs[i - 1].View());
    }
  }

  lemma {:induction false} PassedIsBeforeCut(enc: Encoder, fs: seq<CanFrame>, i: nat, r: Rules<CanFrame>)
    requires r == FrameRules(r.sort, r.limit) && AllStorable(fs) && Encodes(enc)
    requires i <= |fs| && Passed(enc, fs, i, r.limit)
    ensures Cut(fs, r) == i + CutFrom(fs[i..], r, PACKET_BASE_SIZE + |Written(enc, fs, i)|)
  {
    if i == 0 {
      assert fs[0..] == fs;
    } else {
      PassedIsBeforeCut(enc, fs, i - 1, r);
      assert fs[i - 1..][1..] == fs[i..];
      assert |EncodeFrame(fs[i - 1].View())| == fs[i - 1].WireSize();
    }
  }

  lemma PackerStopsAtCut(enc: Encoder, fs: seq<CanFrame>, i: nat, limit: nat)
    requires AllStorable(fs) && Encodes(enc) && i <= |fs| && Passed(enc, fs, i, limit)
    requires i < |fs| ==> PACKET_BASE_SIZE + |Written(enc, fs, i)| + fs[i].SlotSize() > limit
    ensures Cut(fs, FrameRules(false, limit)) == i
  {
    PassedIsBeforeCut(enc, fs, i, FrameRules(false, limit));
  }

  /** memcpy into a packet */
  method CopyInto(dst: array<uint8>, at: nat, bytes: seq<uint8>)
    requires at + |bytes| <= dst.Length
    modifies dst
    ensures Holds(dst, at, bytes)
    ensures SameOutside(dst, at, at + |bytes|)
  {
    forall i | 0 <= i < |bytes| {
      dst[at + i] := bytes[i];
    }
  }

  /** Writes one frame at `data` and returns the advanced cursor. */
  method PutFrame(packet: array<uint8>, data: nat, frame: CanFrame, ghost enc: Encoder) returns (next: nat)
    requires frame.Storable() && Encodes(enc)
    requires data + frame.SlotSize() <= packet.Length
    modifies packet
    ensures next == data + |enc(frame)|
    ensures FRAME_BASE_SIZE <= |enc(frame)| <= frame.SlotSize()
    ensures Holds(packet, data, enc(frame))
    ensures SameOutside(packet, data, next)
  {
    ghost var w := frame.View();
    CopyInto(packet, data, Be32(frame.id));
    next := data + 4;
    packet[next] := frame.len;
    next := next + 1;
    if IsFd(frame.len) {
      packet[next] := frame.flags;
      next := next + 1;
    }
    if !IsRtr(frame.id) {
      CopyInto(packet, next, frame.data[..DataLen(frame.len)]);
      next := next + DataLen(frame.len);
    }
  }

  /** The packer's loop: frames are written behind the header until one does not fit. */
  method PackFrames(len: uint16, packet: array<uint8>, frames: seq<Frame>, ghost fs: seq<CanFrame>, ghost enc: Encoder)
    returns (data: nat, frameCount: uint16)
    requires PACKET_BASE_SIZE <= len <= packet.Length
    requires fs == Values(frames) && AllStorable(fs) && Encodes(enc)
    modifies packet
    ensures frameCount == Cut(fs, FrameRules(false, len))
    ensures PACKET_BASE_SIZE + 5 * frameCount <= data <= len
    ensures data == PACKET_BASE_SIZE + |Written(enc, fs, frameCount)|
    ensures Holds(packet, PACKET_BASE_SIZE, Written(enc, fs, frameCount))
    ensures SameOutside(packet, PACKET_BASE_SIZE, data)
  {
    data, frameCount := PACKET_BASE_SIZE, 0;
    ValuesAt(frames);
    var i := 0;
    while i < |frames|
      invariant 0 <= i <= |frames| && frameCount == i
      invariant PACKET_BASE_SIZE + 5 * i <= data <= len
      invariant data == PACKET_BASE_SIZE + |Written(enc, fs, i)| && Passed(enc, fs, i, len)
      invariant Holds(packet, PACKET_BASE_SIZE, Written(enc, fs, i))
      invariant SameOutside(packet, PACKET_BASE_SIZE, data)
    {
      var frame := frames[i].Value();
      assert fs[i] == frame;
      if data + frame.SlotSize() > len {
        break;
      }
      data := PutFrame(packet, data, frame, enc);
      frameCount := (frameCount + 1) % 0x1_0000;
      i := i + 1;
    }
    PackerStopsAtCut(enc, fs, i, len);
  }

  method PutHeader(packet: array<uint8>, seqNo: uint8, count: uint16, ghost body: seq<uint8>)
    requires Holds(packet, PACKET_BASE_SIZE, body)
    modifies packet
    ensures packet[..PACKET_BASE_SIZE + |body|] == Header(seqNo, count) + body
    ensures SameOutside(packet, 0, PACKET_BASE_SIZE)
  {
    CopyInto(packet, 0, Header(seqNo, count));
    assert forall k :: 0 <= k < |body| ==> packet[PACKET_BASE_SIZE + k] == body[k];
  }

  /** Prints frames until one does not fit. `sent` is the position of the first frame that is
      left to the overflow handler, or the number of frames if the handler is not called. All
      writes stay inside `len`, and the bytes behind the packet keep their values. */
  method BuildPacket(len: uint16, packet: array<uint8>, frames: seq<Frame>, seqNo: uint8)
    returns (end: nat, sent: nat)
    requires PACKET_BASE_SIZE <= len <= packet.Length
    requires AllStorable(Values(frames))
    modifies packet
    ensures sent == Cut(old(Values(frames)), FrameRules(false, len))
    ensures PACKET_BASE_SIZE + 5 * sent <= end <= len
    ensures packet[..end] == EncodePacket(Views(old(Values(frames))[..sent]), seqNo)
    ensures Packed(packet[..end], old(Values(frames)), sent, len, seqNo)
    ensures SameOutside(packet, 0, end)
  {
    ghost var enc := (f: CanFrame) => EncodeFrame(f.View());
    ghost var fs := Values(frames);
    end, sent := PackFrames(len, packet, frames, fs, enc);
    ghost var body := Written(enc, fs, sent);
    WrittenIsEncoding(enc, fs, sent);
    PutHeader(packet, seqNo, sent, body);
    assert EncodePacket(Views(fs[..sent]), seqNo) == Header(seqNo, sent) + body;
    PacketIsPacked(packet[..end], fs, sent, len, seqNo);
  }

  /** What reading one frame comes to. */
  function Ending(step: Codec.Step): Outcome {
    match step
    case Got(_, _) => Completed
    case Short => Incomplete
    case Truncated => Corrupt
    case Undefined => NotDefined
  }

  lemma ReadEnds(read: Reader, b: seq<uint8>, len: nat, pos: nat, id: uint32, l: uint8)
    requires pos + FRAME_BASE_SIZE <= len <= |b| && Reads(read, b, len)
    requires id == FromBe32(b[pos..pos + 4]) && l == b[pos + 4]
    ensures var p, n := pos + FRAME_BASE_SIZE + FlagCount(l), DataCount(id, l);
            && (p > |b| ==> read(pos).Undefined?)
            && (p <= |b| && !IsRtr(id) && p + n > len ==> read(pos).Truncated?)
            && (p <= |b| && !IsRtr(id) && p + n <= len && n > MAX_DATA ==> read(pos).Undefined?)
  {
    assert read(pos) == ReadStep(b, len, pos);
  }

  lemma ReadFills(read: Reader, b: seq<uint8>, len: nat, pos: nat, f: CanFrame)
    requires pos + FRAME_BASE_SIZE <= len <= |b| && Reads(read, b, len)
    requires f.id == FromBe32(b[pos..pos + 4]) && f.len == b[pos + 4] && f.Storable()
    requires var p, n := pos + FRAME_BASE_SIZE + FlagCount(f.len), DataCount(f.id, f.len);
             && p <= |b| && (IsFd(f.len) ==> f.flags == b[p - 1])
             && (IsRtr(f.id) || p + n <= len) && f.data[..n] == b[p..p + n]
    ensures read(pos) == Got(f.View(), pos + FRAME_BASE_SIZE + FlagCount(f.len) + DataCount(f.id, f.len))
  {
    assert read(pos) == ReadStep(b, len, pos);
    ReadFilled(b, len, pos, f);
  }

  /** Fills `frame` from the bytes at `pos`. Whatever the packet does not carry keeps its old
      value: the flags of a classic frame and the data bytes past the declared length. Where the
      program would leave its arrays, the model stops. */
  method ReadFrame(buffer: array<uint8>, len: uint16, pos: nat, frame: Frame, ghost read: Reader)
    returns (ending: Outcome, next: nat)
    requires len <= buffer.Length && Reads(read, buffer[..], len) && !read(pos).Short?
    modifies frame
    ensures ending == Ending(read(pos))
    ensures ending == Completed ==> read(pos) == Got(frame.Value().View(), next) && frame.Value().Storable()
    ensures ending == Completed && !IsFd(frame.len) ==> frame.flags == old(frame.flags)
    ensures ending == Completed ==>
              var n := DataCount(frame.id, frame.len);
              frame.data[n..] == old(frame.data)[n..]
    ensures ending != Completed ==> frame.data == old(frame.data)
    ensures ending == Corrupt ==> frame.len == 0
  {
    ghost var b := buffer[..];
    ShortRead(read, b, len, pos);
    var word := buffer[pos..pos + 4];
    assert word == b[pos..pos + 4];
    frame.id, frame.len := FromBe32(word), buffer[pos + 4];
    ReadEnds(read, b, len, pos, frame.id, frame.len);
    next := pos + 5;
    if IsFd(frame.len) {
      if next == buffer.Length {
        return NotDefined, next;
      }
      frame.flags := buffer[next];
      next := next + 1;
    }
    if !IsRtr(frame.id) {
      var n := DataLen(frame.len);
      if next + n > len {
        frame.len := 0;
        return Corrupt, next;
      }
      if n > MAX_DATA {
        return NotDefined, next;
      }
      CopyData(buffer, next, n, frame);
      next := next + n;
    }
    ReadFills(read, b, len, pos, frame.Value());
    ending := Completed;
  }

  /** memcpy into a frame */
  method CopyData(buffer: array<uint8>, at: nat, n: nat, frame: Frame)
    requires at + n <= buffer.Length && n <= MAX_DATA
    modifies frame`data
    ensures frame.data[..n] == buffer[..][at..at + n] && frame.data[n..] == old(frame.data)[n..]
  {
    var copied := buffer[at..at + n];
    assert copied == buffer[..][at..at + n];
    frame.data := copied + frame.data[n..];
  }

  /** One call of the receiver: the frame, the success flag, and what the frame showed then. */
  datatype Delivery = Delivery(frame: Frame, ok: bool, view: Wire)

  function Delivered(log: seq<Delivery>): seq<Wire> {
    seq(|log|, i requires 0 <= i < |log| => log[i].view)
  }

  /** How many frames an allocator hands out before it first fails. */
  function Supplied(supply: seq<Frame?>): (g: nat)
    ensures g <= |supply|
    ensures forall i :: 0 <= i < g ==> supply[i] != null
    ensures g < |supply| ==> supply[g] == null
  {
    if supply == [] || supply[0] == null then 0 else 1 + Supplied(supply[1..])
  }

  /** The log of a parse: the frames obtained, each exactly once and in the order obtained,
      all of them good but the last one of a corrupt packet. */
  ghost predicate LogOf(log: seq<Delivery>, supply: seq<Frame?>, r: Parsed) {
    var good := |r.frames|;
    && |log| == good + (if r.outcome == Corrupt then 1 else 0) <= |supply|
    && Delivered(log[..good]) == r.frames
    && (forall i :: 0 <= i < |log| ==> log[i].frame == supply[i] && log[i].ok == (i < good))
  }

  ghost predicate AllGood(log: seq<Delivery>, supply: seq<Frame?>) {
    |log| <= |supply| && forall i :: 0 <= i < |log| ==> log[i].frame == supply[i] && log[i].ok
  }

  lemma LogEnds(log: seq<Delivery>, supply: seq<Frame?>, end: nat, outcome: Outcome)
    requires AllGood(log, supply) && outcome != Corrupt
    ensures LogOf(log, supply, Parsed(Delivered(log), end, outcome))
  {
    assert log[..|log|] == log;
  }

  lemma LogEndsCorrupt(log: seq<Delivery>, supply: seq<Frame?>, end: nat, last: Delivery)
    requires AllGood(log, supply) && |log| < |supply|
    requires last.frame == supply[|log|] && !last.ok
    ensures LogOf(log + [last], supply, Parsed(Delivered(log), end, Corrupt))
  {
    assert (log + [last])[..|log|] == log;
  }

  lemma LogGrows(log: seq<Delivery>, supply: seq<Frame?>, d: Delivery)
    requires AllGood(log, supply) && |log| < |supply| && d.frame == supply[|log|] && d.ok
    ensures AllGood(log + [d], supply) && Delivered(log + [d]) == Delivered(log) + [d.view]
  {
  }

  /** The parser's loop; its callers pass the reader that describes the buffer. */
  method ParseLoop(len: uint16, buffer: array<uint8>, count: uint16, supply: seq<Frame?>, ghost read: Reader)
    returns (outcome: Outcome, log: seq<Delivery>)
    requires len <= buffer.Length && Reads(read, buffer[..], len) && count <= |supply|
    modifies set f | f in supply && f != null
    ensures var r := ParseFrom(read, PACKET_BASE_SIZE, count, Supplied(supply));
            outcome == r.outcome && LogOf(log, supply, r)
  {
    log := [];
    ghost var g := Supplied(supply);
    var pos: nat := PACKET_BASE_SIZE;
    var i := 0;
    while i < count
      invariant 0 <= i <= count && i <= g && |log| == i
      invariant AllGood(log, supply)
      invariant Chain(read, PACKET_BASE_SIZE, Delivered(log), pos)
    {
      ShortRead(read, buffer[..], len, pos);
      if pos + FRAME_BASE_SIZE > len {
        LoopStops(read, count, g, log, supply, pos);
        return Incomplete, log;
      }
      var frame := supply[i];
      if frame == null {
        LoopStops(read, count, g, log, supply, pos);
        return AllocationError, log;
      }
      var ending, next := ReadFrame(buffer, len, pos, frame, read);
      var delivery := Delivery(frame, ending == Completed, frame.Value().View());
      if ending != Completed {
        LoopStops(read, count, g, log, supply, pos);
        if ending == Corrupt {
          LogEndsCorrupt(log, supply, pos, delivery);
          log := log + [delivery];
        }
        return ending, log;
      }
      ChainAppend(read, PACKET_BASE_SIZE, Delivered(log), pos);
      LogGrows(log, supply, delivery);
      log := log + [delivery];
      pos := next;
      i := i + 1;
    }
    LoopStops(read, count, g, log, supply, pos);
    outcome := Completed;
  }

  lemma LoopStops(read: Reader, count: nat, g: nat, log: seq<Delivery>, supply: seq<Frame?>, pos: nat)
    requires AllGood(log, supply) && |log| <= count && |log| <= g
    requires Chain(read, PACKET_BASE_SIZE, Delivered(log), pos)
    requires |log| == count || |log| == g || !read(pos).Got?
    ensures var r := ParseFrom(read, PACKET_BASE_SIZE, count, g);
            && r == Parsed(Delivered(log), pos, ParseFrom(read, pos, count - |log|, g - |log|).outcome)
            && (r.outcome != Corrupt ==> LogOf(log, supply, r))
  {
    ChainStops(read, PACKET_BASE_SIZE, count, g, Delivered(log), pos);
    var r := ParseFrom(read, PACKET_BASE_SIZE, count, g);
    if r.outcome != Corrupt {
      LogEnds(log, supply, pos, r.outcome);
    }
  }

  /** Parses a received packet with an arbitrary allocator: its k-th call returns
      `supply[k]`, the same frame again included. Every frame obtained is delivered exactly
      once, in the order obtained; a failed delivery is the last one, and it happens exactly
      when the packet is corrupt. The exception is the frame at which the program leaves its
      arrays, and with it the model. */
  method ParseFrames(len: uint16, buffer: array<uint8>, supply: seq<Frame?>)
    returns (outcome: Outcome, log: seq<Delivery>)
    requires PACKET_BASE_SIZE <= buffer.Length && len <= buffer.Length
    requires Count(buffer[..]) <= |supply|
    modifies set f | f in supply && f != null
    ensures buffer[..] == old(buffer[..])
    ensures var r := Parse(buffer[..], len, Supplied(supply));
            outcome == r.outcome && LogOf(log, supply, r)
  {
    if buffer[0] != FRAME_VERSION {
      return WrongVersion, [];
    }
    if buffer[1] != OP_DATA {
      return WrongOpCode, [];
    }
    outcome, log := ParseLoop(len, buffer, Count(buffer[..]), supply, ReaderOf(buffer[..], len));
  }
}
