/**
 The packet format in plain bytes, as it is documented: version 2, op code 0, a sequence number,
 the number of frames in two bytes; then for each frame its identifier in four bytes, its length
 byte, a flags byte if the length's top bit is set, and the data unless it is a remote frame. Numbers
 are big-endian. Nothing here is defined by the encoder: the lemmas show that its packets have
 this layout, and that nothing else has.
 */
module Format {
  import opened Can
  import opened Codec
  import opened Packing

  /** The number in the first four bytes. */
  function Word(c: seq<uint8>): int
    requires 4 <= |c|
  {
    c[0] as int * 0x100_0000 + c[1] as int * 0x1_0000 + c[2] as int * 0x100 + c[3]
  }

  ghost predicate IsHeader(c: seq<uint8>, seqNo: uint8, count: nat) {
    |c| == 5 && c[0] == 2 && c[1] == 0 && c[2] == seqNo && c[3] as int * 0x100 + c[4] == count
  }

  /** The data bytes of a frame: none if the bit of remote frames is set in its identifier. */
  function DataWidth(id: uint32, len: uint8): nat { if id / 0x4000_0000 % 2 == 1 then 0 else len % 0x80 }

  function Width(id: uint32, len: uint8): (n: nat)
    ensures n >= 5
  {
    5 + len / 0x80 + DataWidth(id, len)
  }

  ghost predicate IsFrame(c: seq<uint8>, w: Wire) {
    var p := 5 + w.len / 0x80;
    && |c| == Width(w.id, w.len) && Word(c) == w.id && c[4] == w.len
    && c[5..p] == w.flags && c[p..] == w.data
  }

  /** The bytes are those of the frames, one behind the other. */
  ghost predicate AreFrames(c: seq<uint8>, ws: seq<Wire>)
    decreases |ws|
  {
    if ws == [] then c == []
    else
      var n := Width(ws[0].id, ws[0].len);
      n <= |c| && IsFrame(c[..n], ws[0]) && AreFrames(c[n..], ws[1..])
  }

  ghost predicate LaidOut(b: seq<uint8>, ws: seq<Wire>, seqNo: uint8) {
    5 <= |b| && IsHeader(b[..5], seqNo, |ws|) && AreFrames(b[5..], ws)
  }

  lemma WordIff(c: seq<uint8>, x: uint32)
    requires 4 <= |c|
    ensures c[..4] == Be32(x) <==> Word(c) == x
  {
    Be32Inverse(x, c[..4]);
    assert FromBe32(c[..4]) == Word(c);
  }

  lemma HeaderIff(c: seq<uint8>, seqNo: uint8, count: uint16)
    ensures c == Header(seqNo, count) <==> IsHeader(c, seqNo, count)
  {
  }

  /** The bytes of a valid frame are the printed ones. */
  lemma FrameIff(c: seq<uint8>, w: Wire)
    requires w.Valid()
    ensures |EncodeFrame(w)| == Width(w.id, w.len)
    ensures c == EncodeFrame(w) <==> IsFrame(c, w)
  {
    if |c| == Width(w.id, w.len) {
      var p := 5 + w.len / 0x80;
      EncodedParts(w);
      WordIff(c, w.id);
      assert c == c[..4] + [c[4]] + c[5..p] + c[p..];
    }
  }

  lemma SplitIff(c: seq<uint8>, x: seq<uint8>, y: seq<uint8>)
    ensures c == x + y <==> |x| <= |c| && c[..|x|] == x && c[|x|..] == y
  {
    if |x| <= |c| {
      assert c == c[..|x|] + c[|x|..];
    }
  }

  lemma {:induction false} FramesIff(c: seq<uint8>, ws: seq<Wire>)
    requires AllValid(ws)
    ensures c == EncodeFrames(ws) <==> AreFrames(c, ws)
    decreases |ws|
  {
    if ws != [] {
      var n := Width(ws[0].id, ws[0].len);
      FrameIff([], ws[0]);
      SplitIff(c, EncodeFrame(ws[0]), EncodeFrames(ws[1..]));
      if n <= |c| {
        FrameIff(c[..n], ws[0]);
        FramesIff(c[n..], ws[1..]);
      }
    }
  }

  /** The format, both ways: a packet of valid frames has the documented layout, and it is the only
      sequence of bytes that has it. */
  lemma PacketIff(b: seq<uint8>, ws: seq<Wire>, seqNo: uint8)
    requires AllValid(ws) && |ws| < 0x1_0000
    ensures b == EncodePacket(ws, seqNo) <==> LaidOut(b, ws, seqNo)
  {
    SplitIff(b, Header(seqNo, |ws|), EncodeFrames(ws));
    if 5 <= |b| {
      HeaderIff(b[..5], seqNo, |ws|);
      FramesIff(b[5..], ws);
    }
  }

  /** What is laid out like a packet is parsed to its frames, whatever stands behind it. */
  lemma LaidOutIsParsed(b: seq<uint8>, len: nat, ws: seq<Wire>, seqNo: uint8, grants: nat)
    requires AllValid(ws) && |ws| < 0x1_0000 && |ws| <= grants
    requires len <= |b| && LaidOut(b[..len], ws, seqNo)
    ensures Parse(b, len, grants) == Parsed(ws, len, Completed)
  {
    PacketIff(b[..len], ws, seqNo);
    RoundTrip(ws, seqNo, b, grants);
  }

  /** And what the parser accepts is laid out like a packet of the frames it delivers. */
  lemma ParsedIsLaidOut(b: seq<uint8>, len: nat, grants: nat)
    requires 5 <= |b| && len <= |b| && Parse(b, len, grants).outcome == Completed
    ensures var r := Parse(b, len, grants);
            r.end <= |b| && LaidOut(b[..r.end], r.frames, b[2])
  {
    var r := Parse(b, len, grants);
    ReverseRoundTrip(b, len, grants);
    ReaderIsSound(b, len);
    ParseAccountsForBytes(ReaderOf(b, len), b, len, 5, Count(b), grants);
    PacketIff(b[..r.end], r.frames, b[2]);
  }

  // ----- What the printer makes of a list of frames

  /** The bytes of what a frame's memory holds, without the parts that are not transmitted. */
  ghost predicate IsPrint(c: seq<uint8>, f: CanFrame) {
    var p, n := 5 + f.len / 0x80, DataWidth(f.id, f.len);
    && n <= 64 && |c| == p + n
    && Word(c) == f.id && c[4] == f.len && (f.len >= 0x80 ==> c[5] == f.flags)
    && c[p..] == f.data[..n]
  }

  /** The bytes are those of the frames, one behind the other. */
  ghost predicate ArePrints(c: seq<uint8>, fs: seq<CanFrame>)
    decreases |fs|
  {
    if fs == [] then c == []
    else
      var m := Width(fs[0].id, fs[0].len);
      m <= |c| && IsPrint(c[..m], fs[0]) && ArePrints(c[m..], fs[1..])
  }

  /** The bytes that must be left for a frame, whether or not it has data. */
  function Slot(f: CanFrame): nat { 5 + f.len / 0x80 + f.len % 0x80 }

  /** From `o` on each of the first `n` frames finds its slot inside the limit, the next one does
      not. */
  predicate FillUp(o: nat, fs: seq<CanFrame>, n: nat, limit: nat)
    decreases n
  {
    if n == 0 then fs == [] || o + Slot(fs[0]) > limit
    else
      fs != [] && o + Slot(fs[0]) <= limit && FillUp(o + Width(fs[0].id, fs[0].len), fs[1..], n - 1, limit)
  }

  /** `b` is the packet of the first `n` frames, as many as fit. */
  ghost predicate Packed(b: seq<uint8>, fs: seq<CanFrame>, n: nat, limit: nat, seqNo: uint8) {
    && n <= |fs| && FillUp(5, fs, n, limit)
    && 5 <= |b| && IsHeader(b[..5], seqNo, n) && ArePrints(b[5..], fs[..n])
  }

  lemma ViewIsPrint(c: seq<uint8>, f: CanFrame)
    requires f.Storable() && IsFrame(c, f.View())
    ensures IsPrint(c, f)
  {
    if f.len >= 0x80 {
      assert c[5] == c[5..5 + f.len / 0x80][0];
    }
  }

  lemma {:induction false} FramesArePrints(c: seq<uint8>, fs: seq<CanFrame>)
    requires AllStorable(fs) && AreFrames(c, Views(fs))
    ensures ArePrints(c, fs)
    decreases |fs|
  {
    if fs != [] {
      var m := Width(fs[0].id, fs[0].len);
      assert Views(fs)[1..] == Views(fs[1..]);
      ViewIsPrint(c[..m], fs[0]);
      FramesArePrints(c[m..], fs[1..]);
    }
  }

  lemma {:induction false} CutFillsUp(o: nat, fs: seq<CanFrame>, limit: nat)
    ensures FillUp(o, fs, CutFrom(fs, FrameRules(false, limit), o), limit)
    decreases |fs|
  {
    if fs != [] {
      CutFillsUp(o + Width(fs[0].id, fs[0].len), fs[1..], limit);
    }
  }

  /** The packet of the views of the frames before the cut is what the printer has to make of the
      frames. */
  lemma PacketIsPacked(b: seq<uint8>, fs: seq<CanFrame>, n: nat, limit: nat, seqNo: uint8)
    requires AllStorable(fs) && n == Cut(fs, FrameRules(false, limit)) < 0x1_0000
    requires b == EncodePacket(Views(fs[..n]), seqNo)
    ensures Packed(b, fs, n, limit, seqNo)
  {
    ViewsAreValid(fs[..n]);
    PacketIff(b, Views(fs[..n]), seqNo);
    FramesArePrints(b[5..], fs[..n]);
    CutFillsUp(5, fs, limit);
  }
}
