/**
 The packet format as functions: a header (version, op code, sequence number, 16-bit frame
 count) followed by the frames, everything in network byte order.

 `EncodePacket` is the meaning of a packet; `FrameRules` are the sizes that decide how many
 frames go into it; `Parse` is the parser's decision what a received buffer holds. The lemmas show
 that printing and parsing are inverse to each other, in both directions, and that the
 parser finds the longest run of frames a buffer starts with.
 */
module Codec {
  import opened Can
  import opened Packing
  import opened Sequences

  // ----- Frames on the wire

  function Be32(x: uint32): (b: seq<uint8>)
    ensures |b| == 4
  {
    [x / 0x100 / 0x100 / 0x100, x / 0x100 / 0x100 % 0x100, x / 0x100 % 0x100, x % 0x100]
  }

  function FromBe32(b: seq<uint8>): uint32
    requires |b| == 4
  {
    (((b[0] as int) * 0x100 + b[1]) * 0x100 + b[2]) * 0x100 + b[3]
  }

  /** Both are big-endian, and so inverse to each other. */
  lemma Be32Inverse(x: uint32, b: seq<uint8>)
    requires |b| == 4
    ensures var c := Be32(x);
            c[0] as int * 0x100_0000 + c[1] as int * 0x1_0000 + c[2] as int * 0x100 + c[3] == x
    ensures FromBe32(b) == b[0] as int * 0x100_0000 + b[1] as int * 0x1_0000 + b[2] as int * 0x100 + b[3]
    ensures FromBe32(Be32(x)) == x
    ensures Be32(FromBe32(b)) == b
  {
  }

  function EncodeFrame(w: Wire): (b: seq<uint8>)
    ensures |b| == FRAME_BASE_SIZE + |w.flags| + |w.data|
  {
    Be32(w.id) + [w.len] + w.flags + w.data
  }

  function EncodeFrames(ws: seq<Wire>): (b: seq<uint8>)
    ensures |b| >= 5 * |ws|
  {
    if ws == [] then [] else EncodeFrame(ws[0]) + EncodeFrames(ws[1..])
  }

  function Header(seqNo: uint8, count: uint16): (h: seq<uint8>)
    ensures |h| == PACKET_BASE_SIZE
  {
    [FRAME_VERSION, OP_DATA, seqNo, count / 0x100, count % 0x100]
  }

  lemma HeaderInverse(b: seq<uint8>)
    requires |b| >= PACKET_BASE_SIZE && b[0] == FRAME_VERSION && b[1] == OP_DATA
    ensures Header(b[2], Count(b)) == b[..PACKET_BASE_SIZE]
  {
  }

  lemma HeaderFields(seqNo: uint8, count: uint16, b: seq<uint8>)
    requires Header(seqNo, count) <= b
    ensures b[0] == FRAME_VERSION && b[1] == OP_DATA && Count(b) == count
  {
    var h := Header(seqNo, count);
    assert b[0] == h[0] && b[1] == h[1] && b[3] == h[3] && b[4] == h[4];
  }

  function EncodePacket(ws: seq<Wire>, seqNo: uint8): seq<uint8>
    requires |ws| < 0x1_0000
  {
    Header(seqNo, |ws|) + EncodeFrames(ws)
  }

  predicate AllValid(ws: seq<Wire>) {
    forall i :: 0 <= i < |ws| ==> ws[i].Valid()
  }

  lemma EncodeCons(w: Wire, ws: seq<Wire>)
    ensures EncodeFrames([w] + ws) == EncodeFrame(w) + EncodeFrames(ws)
    ensures w.Valid() && AllValid(ws) ==> AllValid([w] + ws)
  {
    assert ([w] + ws)[1..] == ws;
  }

  lemma {:induction false} EncodeAppend(ws: seq<Wire>, w: Wire)
    ensures EncodeFrames(ws + [w]) == EncodeFrames(ws) + EncodeFrame(w)
  {
    if ws == [] {
      assert [w][1..] == [];
      assert [] + [w] == [w];
      assert EncodeFrames([w]) == EncodeFrame(w) + EncodeFrames([]);
    } else {
      assert (ws + [w])[1..] == ws[1..] + [w];
      EncodeAppend(ws[1..], w);
    }
  }

  // ----- The packer's sizes

  /** The bytes reserved for a frame, as a size for sums. */
  function SlotSizes(): CanFrame -> nat { (f: CanFrame) => f.SlotSize() }

  function Keys(): CanFrame -> nat { (f: CanFrame) => f.Key() }

  /** The packer's view of a frame: the overflow test reserves room for the data of a remote
      frame although none is written. */
  function FrameRules(sort: bool, limit: nat): Rules<CanFrame> {
    Rules(SlotSizes(), (f: CanFrame) => f.WireSize(), Keys(), sort, PACKET_BASE_SIZE, limit)
  }

  /** The same for what goes on the wire: identifier and length decide everything. */
  function WireSlots(): Wire -> nat { (w: Wire) => FRAME_BASE_SIZE + DataLen(w.len) + FlagCount(w.len) }

  function WireRules(sort: bool, limit: nat): Rules<Wire> {
    Rules(WireSlots(), (w: Wire) => FRAME_BASE_SIZE + FlagCount(w.len) + DataCount(w.id, w.len),
          (w: Wire) => MaskedId(w.id), sort, PACKET_BASE_SIZE, limit)
  }

  /** In the order of the comparison that sorts the queue. */
  ghost predicate Ascending(ws: seq<Wire>) {
    forall i, j :: 0 <= i < j < |ws| ==> MaskedId(ws[i].id) <= MaskedId(ws[j].id)
  }

  lemma SortedAscends(ws: seq<Wire>, sort: bool, limit: nat)
    requires Sorted(ws, WireRules(sort, limit).key)
    ensures Ascending(ws)
  {
    var key := WireRules(sort, limit).key;
    forall i, j | 0 <= i < j < |ws| ensures MaskedId(ws[i].id) <= MaskedId(ws[j].id) {
      assert key(ws[i]) <= key(ws[j]);
    }
  }

  /** What the packer relies on: a header of five bytes, a limit of 16 bits behind it, and at
      least five bytes for each frame. */
  ghost predicate Framed<T(!new)>(r: Rules<T>) {
    && r.base == PACKET_BASE_SIZE <= r.limit < 0x1_0000
    && forall x :: 5 <= r.wire(x) <= r.slot(x)
  }

  lemma RulesAreFramed(sort: bool, limit: uint16)
    requires PACKET_BASE_SIZE <= limit
    ensures Framed(FrameRules(sort, limit)) && Framed(WireRules(sort, limit))
  {
  }

  lemma FrameRulesAreSane(sort: bool, limit: nat)
    ensures Sane(FrameRules(sort, limit))
  {
  }

  lemma ViewIsValid(f: CanFrame)
    requires f.Storable()
    ensures f.View().Valid() && |EncodeFrame(f.View())| == f.WireSize()
  {
  }

  lemma ViewsAreValid(fs: seq<CanFrame>)
    requires AllStorable(fs)
    ensures AllValid(Views(fs))
  {
    ViewsAt(fs);
    forall i | 0 <= i < |fs| ensures Views(fs)[i].Valid() {
      ViewIsValid(fs[i]);
    }
  }

  /** A packet's length is the header plus the wire sizes of its frames. */
  lemma {:induction false} EncodedLength(ws: seq<Wire>, sort: bool, limit: nat)
    requires AllValid(ws)
    ensures |EncodeFrames(ws)| == Sum(ws, WireRules(sort, limit).wire)
  {
    if ws != [] {
      EncodedLength(ws[1..], sort, limit);
    }
  }

  /** So few frames fit into a packet that its 16-bit frame count cannot wrap. */
  lemma CountCannotWrap<T(!new)>(q: seq<T>, r: Rules<T>)
    requires Framed(r)
    ensures PACKET_BASE_SIZE + 5 * Cut(q, r) <= r.limit
    ensures Cut(q, r) < 0x1_0000
  {
    CutFits(q, r, r.base);
    AtLeastFiveEach(q[..Cut(q, r)], r.wire);
  }

  lemma {:induction false} AtLeastFiveEach<T(!new)>(q: seq<T>, size: T -> nat)
    requires forall x :: size(x) >= 5
    ensures Sum(q, size) >= 5 * |q|
  {
    if q != [] {
      AtLeastFiveEach(q[1..], size);
    }
  }

  // ----- A flush of frames shows as a flush of their views

  lemma {:induction false} SumShows(fs: seq<CanFrame>)
    ensures Sum(fs, SlotSizes()) == Sum(Views(fs), WireSlots())
  {
    if fs != [] {
      SumShows(fs[1..]);
    }
  }

  lemma {:induction false} CutShows(fs: seq<CanFrame>, sort: bool, limit: nat, cursor: nat)
    ensures CutFrom(fs, FrameRules(sort, limit), cursor) == CutFrom(Views(fs), WireRules(sort, limit), cursor)
  {
    if fs != [] {
      CutShows(fs[1..], sort, limit, cursor + fs[0].WireSize());
      assert Views(fs)[1..] == Views(fs[1..]);
    }
  }

  lemma {:induction false} ReverseShows(fs: seq<CanFrame>)
    ensures Views(Reverse(fs)) == Reverse(Views(fs))
  {
    if fs != [] {
      ReverseShows(fs[1..]);
      ViewsConcat(Reverse(fs[1..]), [fs[0]]);
      assert Views(fs)[1..] == Views(fs[1..]);
    }
  }

  lemma {:induction false} InsertShows(fs: seq<CanFrame>, f: CanFrame, key: CanFrame -> nat, key': Wire -> nat)
    requires forall x: CanFrame {:trigger x.View()} :: key(x) == key'(x.View())
    ensures Views(Insert(fs, f, key)) == Insert(Views(fs), f.View(), key')
  {
    ViewsConcat(fs, [f]);
    if fs != [] {
      var n := |fs| - 1;
      ViewsSplit(fs, n);
      ViewsAt(fs);
      InsertShows(fs[..n], f, key, key');
      ViewsConcat(Insert(fs[..n], f, key), [fs[n]]);
    }
  }

  lemma {:induction false} SortShows(fs: seq<CanFrame>, key: CanFrame -> nat, key': Wire -> nat)
    requires forall x: CanFrame {:trigger x.View()} :: key(x) == key'(x.View())
    ensures Views(Sort(fs, key)) == Sort(Views(fs), key')
  {
    if fs != [] {
      var n := |fs| - 1;
      ViewsSplit(fs, n);
      ViewsAt(fs);
      SortShows(fs[..n], key, key');
      InsertShows(Sort(fs[..n], key), fs[n], key, key');
    }
  }

  /** What a flush sends and leaves shows as what a flush of the views sends and leaves. */
  lemma FlushShows(fs: seq<CanFrame>, sort: bool, limit: nat)
    ensures Views(Sent(fs, FrameRules(sort, limit))) == Sent(Views(fs), WireRules(sort, limit))
    ensures Views(Left(fs, FrameRules(sort, limit))) == Left(Views(fs), WireRules(sort, limit))
  {
    var r, r' := FrameRules(sort, limit), WireRules(sort, limit);
    SortShows(fs, r.key, r'.key);
    var o := Offered(fs, r);
    assert Views(o) == Offered(Views(fs), r');
    CutShows(o, sort, limit, PACKET_BASE_SIZE);
    ViewsSplit(o, Cut(o, r));
    ReverseShows(o[Cut(o, r)..]);
  }

  // ----- Reading one frame

  /** What the parser finds at `pos` when `len` bytes of `b` were received. The flags byte is
      read before the second length check, so it may lie one past `len`. `Undefined` marks
      the reads and copies that leave the program's own arrays. */
  datatype Step = Got(wire: Wire, next: nat) | Short | Truncated | Undefined

  function ReadStep(b: seq<uint8>, len: nat, pos: nat): Step
    requires len <= |b|
  {
    if pos + FRAME_BASE_SIZE > len then Short else
      var id := FromBe32(b[pos..pos + 4]);
      var l := b[pos + 4];
      var p, n := pos + FRAME_BASE_SIZE + FlagCount(l), DataCount(id, l);
      if p > |b| then Undefined
      else if !IsRtr(id) && p + n > len then Truncated
      else if n > MAX_DATA then Undefined
      else Got(Wire(id, l, b[pos + FRAME_BASE_SIZE..p], b[p..p + n]), p + n)
  }

  lemma EncodedParts(w: Wire)
    ensures var e, p := EncodeFrame(w), 5 + |w.flags|;
            e[..4] == Be32(w.id) && e[4] == w.len && e[5..p] == w.flags && e[p..] == w.data
  {
    var head := Be32(w.id) + [w.len];
    assert head[..4] == Be32(w.id);
    assert (head + w.flags)[5..] == w.flags;
  }

  /** Reading what was printed gives it back. */
  lemma ReadEncoded(b: seq<uint8>, len: nat, pos: nat, w: Wire)
    requires len <= |b| && w.Valid()
    requires pos + |EncodeFrame(w)| <= len
    requires b[pos..pos + |EncodeFrame(w)|] == EncodeFrame(w)
    ensures ReadStep(b, len, pos) == Got(w, pos + |EncodeFrame(w)|)
  {
    var e := EncodeFrame(w);
    var c := b[pos..pos + |e|];
    var p := 5 + |w.flags|;
    EncodedParts(w);
    SliceOfSlice(b, pos, pos + |e|, 0, 4);
    SliceOfSlice(b, pos, pos + |e|, 5, p);
    SliceOfSlice(b, pos, pos + |e|, p, |e|);
    assert c[..4] == c[0..4] && b[pos + 4] == c[4] && c[p..] == c[p..|e|];
    Be32Inverse(w.id, Be32(w.id));
  }

  /** A frame that was filled from the bytes at `pos` shows what is read there. */
  lemma ReadFilled(b: seq<uint8>, len: nat, pos: nat, f: CanFrame)
    requires pos + FRAME_BASE_SIZE <= len <= |b|
    requires f.id == FromBe32(b[pos..pos + 4]) && f.len == b[pos + 4] && f.Storable()
    requires var p, n := pos + FRAME_BASE_SIZE + FlagCount(f.len), DataCount(f.id, f.len);
             && p <= |b| && (IsFd(f.len) ==> f.flags == b[p - 1])
             && (IsRtr(f.id) || p + n <= len) && f.data[..n] == b[p..p + n]
    ensures ReadStep(b, len, pos)
         == Got(f.View(), pos + FRAME_BASE_SIZE + FlagCount(f.len) + DataCount(f.id, f.len))
  {
    assert [f.flags][..FlagCount(f.len)] == b[pos + FRAME_BASE_SIZE..pos + FRAME_BASE_SIZE + FlagCount(f.len)];
  }

  predicate IsRemoteFd(w: Wire) { IsRtr(w.id) && IsFd(w.len) }

  /** Printing what was read gives the bytes back; the end may exceed `len` by one byte, and
      only for a remote CAN FD frame. */
  lemma EncodeRead(b: seq<uint8>, len: nat, pos: nat)
    requires len <= |b|
    requires ReadStep(b, len, pos).Got?
    ensures var Got(w, next) := ReadStep(b, len, pos);
            && w.Valid()
            && pos + FRAME_BASE_SIZE <= next <= |b|
            && b[pos..next] == EncodeFrame(w)
            && (next > len ==> next == len + 1 && IsRemoteFd(w))
  {
    var Got(w, next) := ReadStep(b, len, pos);
    var p := pos + 5 + |w.flags|;
    assert b[pos..next] == b[pos..pos + 4] + [b[pos + 4]] + b[pos + 5..p] + b[p..next];
    Be32Inverse(w.id, b[pos..pos + 4]);
  }

  // ----- Parsing a packet

  datatype Outcome =
    | Completed
    | WrongVersion
    | WrongOpCode
    | Incomplete       // not even a frame header left
    | AllocationError
    | Corrupt          // a frame was allocated, its data is cut off
    | NotDefined       // see Step.Undefined

  datatype Parsed = Parsed(frames: seq<Wire>, end: nat, outcome: Outcome)

  type Reader = nat -> Step

  function ReaderOf(b: seq<uint8>, len: nat): Reader
    requires len <= |b|
  {
    (pos: nat) => ReadStep(b, len, pos)
  }

  /** Naming the trigger keeps `ReadStep` folded where only the reader matters. */
  ghost predicate Reads(read: Reader, b: seq<uint8>, len: nat)
    requires len <= |b|
  {
    forall pos: nat {:trigger ReadStep(b, len, pos)} :: read(pos) == ReadStep(b, len, pos)
  }

  lemma ShortRead(read: Reader, b: seq<uint8>, len: nat, pos: nat)
    requires len <= |b| && Reads(read, b, len)
    ensures read(pos).Short? <==> pos + FRAME_BASE_SIZE > len
  {
    assert read(pos) == ReadStep(b, len, pos);
  }

  /** The parser's loop: `count` frames from `pos` on, with an allocator that hands out
      `grants` frames before it first fails. */
  function ParseFrom(read: Reader, pos: nat, count: nat, grants: nat): Parsed
    decreases count
  {
    if count == 0 then Parsed([], pos, Completed)
    else if read(pos).Short? then Parsed([], pos, Incomplete)
    else if grants == 0 then Parsed([], pos, AllocationError)
    else
      match read(pos)
      case Got(w, next) =>
        var rest := ParseFrom(read, next, count - 1, grants - 1);
        Prepend([w], rest)
      case Truncated => Parsed([], pos, Corrupt)
      case _ => Parsed([], pos, NotDefined)
  }

  function Prepend(done: seq<Wire>, r: Parsed): Parsed {
    r.(frames := done + r.frames)
  }

  lemma PrependToNothing(done: seq<Wire>, r: Parsed)
    ensures r.frames == [] ==> Prepend(done, r) == Parsed(done, r.end, r.outcome)
  {
    assert done + [] == done;
  }

  lemma PrependTwice(a: seq<Wire>, b: seq<Wire>, r: Parsed)
    ensures Prepend(a, Prepend(b, r)) == Prepend(a + b, r)
  {
    Associative(a, b, r.frames);
  }

  function Count(b: seq<uint8>): uint16
    requires |b| >= PACKET_BASE_SIZE
  {
    (b[3] as int) * 0x100 + b[4]
  }

  function Parse(b: seq<uint8>, len: nat, grants: nat): Parsed
    requires PACKET_BASE_SIZE <= |b| && len <= |b|
  {
    if b[0] != FRAME_VERSION then Parsed([], PACKET_BASE_SIZE, WrongVersion)
    else if b[1] != OP_DATA then Parsed([], PACKET_BASE_SIZE, WrongOpCode)
    else ParseFrom(ReaderOf(b, len), PACKET_BASE_SIZE, Count(b), grants)
  }

  /** The frames a well-received packet delivers. */
  function Decoded(packet: seq<uint8>): seq<Wire> {
    if |packet| < PACKET_BASE_SIZE then [] else Parse(packet, |packet|, 0x1_0000).frames
  }

  // ----- What the loop needs to know about reading one frame

  /** `b` carries the encoding of `w` at `pos`, within `len`. */
  predicate CarriesOne(b: seq<uint8>, len: nat, pos: nat, w: Wire) {
    pos + |EncodeFrame(w)| <= len <= |b| && b[pos..pos + |EncodeFrame(w)|] == EncodeFrame(w)
  }

  ghost predicate Complete(read: Reader, b: seq<uint8>, len: nat) {
    forall pos: nat, w: Wire {:trigger CarriesOne(b, len, pos, w)} ::
      w.Valid() && CarriesOne(b, len, pos, w) ==> read(pos) == Got(w, pos + |EncodeFrame(w)|)
  }

  ghost predicate Sound(read: Reader, b: seq<uint8>, len: nat) {
    forall pos: nat :: read(pos).Got? ==>
      var Got(w, next) := read(pos);
      && pos + FRAME_BASE_SIZE <= len
      && w.Valid()
      && pos + FRAME_BASE_SIZE <= next <= |b|
      && b[pos..next] == EncodeFrame(w)
      && (next > len ==> next == len + 1 && IsRemoteFd(w))
  }

  lemma ReaderIsComplete(b: seq<uint8>, len: nat)
    requires len <= |b|
    ensures Complete(ReaderOf(b, len), b, len)
  {
    var read := ReaderOf(b, len);
    forall pos: nat, w: Wire | w.Valid() && CarriesOne(b, len, pos, w)
      ensures read(pos) == Got(w, pos + |EncodeFrame(w)|)
    {
      ReadEncoded(b, len, pos, w);
    }
  }

  lemma ReaderIsSound(b: seq<uint8>, len: nat)
    requires len <= |b|
    ensures Sound(ReaderOf(b, len), b, len)
  {
    var read := ReaderOf(b, len);
    forall pos: nat | read(pos).Got?
      ensures var Got(w, next) := read(pos);
              && pos + FRAME_BASE_SIZE <= len
              && w.Valid()
              && pos + FRAME_BASE_SIZE <= next <= |b|
              && b[pos..next] == EncodeFrame(w)
              && (next > len ==> next == len + 1 && IsRemoteFd(w))
    {
      EncodeRead(b, len, pos);
    }
  }

  // ----- Parsing inverts printing

  /** `b` carries the encoding of `ws` at `pos`, within `len`. */
  predicate Carries(b: seq<uint8>, len: nat, pos: nat, ws: seq<Wire>) {
    pos + |EncodeFrames(ws)| <= len <= |b| && b[pos..pos + |EncodeFrames(ws)|] == EncodeFrames(ws)
  }

  lemma CarriesHeadAndTail(b: seq<uint8>, len: nat, pos: nat, ws: seq<Wire>)
    requires ws != [] && Carries(b, len, pos, ws)
    ensures CarriesOne(b, len, pos, ws[0])
    ensures Carries(b, len, pos + |EncodeFrame(ws[0])|, ws[1..])
  {
    var n, e := |EncodeFrame(ws[0])|, EncodeFrames(ws);
    var c := b[pos..pos + |e|];
    SliceOfSlice(b, pos, pos + |e|, 0, n);
    SliceOfSlice(b, pos, pos + |e|, n, |e|);
    assert b[pos..pos + n] == c[..n] == EncodeFrame(ws[0]);
    assert b[pos + n..pos + |e|] == c[n..] == EncodeFrames(ws[1..]);
  }

  /** Reading frame after frame from `pos` gives `ws` and ends at `end`. */
  ghost predicate Chain(read: Reader, pos: nat, ws: seq<Wire>, end: nat)
    decreases |ws|
  {
    if ws == [] then pos == end
    else read(pos).Got? && read(pos).wire == ws[0] && Chain(read, read(pos).next, ws[1..], end)
  }

  lemma {:induction false} CarriedIsChain(read: Reader, b: seq<uint8>, len: nat, pos: nat, ws: seq<Wire>)
    requires Complete(read, b, len) && Carries(b, len, pos, ws) && AllValid(ws)
    ensures Chain(read, pos, ws, pos + |EncodeFrames(ws)|)
    decreases |ws|
  {
    if ws != [] {
      CarriesHeadAndTail(b, len, pos, ws);
      CarriedIsChain(read, b, len, pos + |EncodeFrame(ws[0])|, ws[1..]);
    }
  }

  lemma {:induction false} ChainIsLongest(read: Reader, pos: nat, count: nat, grants: nat, ws: seq<Wire>, end: nat)
    requires Chain(read, pos, ws, end) && |ws| <= count
    ensures var r := ParseFrom(read, pos, count, grants);
            if |ws| <= grants then r == Prepend(ws, ParseFrom(read, end, count - |ws|, grants - |ws|))
            else r.outcome == AllocationError && r.frames == ws[..grants]
    decreases |ws|
  {
    var r := ParseFrom(read, pos, count, grants);
    if ws == [] {
      assert [] + r.frames == r.frames;
    } else if grants > 0 {
      ChainIsLongest(read, read(pos).next, count - 1, grants - 1, ws[1..], end);
      if |ws| <= grants {
        PrependTwice([ws[0]], ws[1..], ParseFrom(read, end, count - |ws|, grants - |ws|));
        assert [ws[0]] + ws[1..] == ws;
      } else {
        assert ws[..grants] == [ws[0]] + ws[1..][..grants - 1];
      }
    }
  }

  lemma {:induction false} ChainAppend(read: Reader, pos: nat, ws: seq<Wire>, end: nat)
    requires Chain(read, pos, ws, end) && read(end).Got?
    ensures Chain(read, pos, ws + [read(end).wire], read(end).next)
    decreases |ws|
  {
    var w := read(end).wire;
    if ws == [] {
      assert [] + [w] == [w] && [w][1..] == [];
    } else {
      ChainAppend(read, read(pos).next, ws[1..], end);
      assert (ws + [w])[1..] == ws[1..] + [w];
    }
  }

  /** A loop that has got as far as `end` and stops there. */
  lemma ChainStops(read: Reader, pos: nat, count: nat, grants: nat, ws: seq<Wire>, end: nat)
    requires Chain(read, pos, ws, end) && |ws| <= count && |ws| <= grants
    requires |ws| == count || |ws| == grants || !read(end).Got?
    ensures ParseFrom(read, pos, count, grants)
         == Parsed(ws, end, ParseFrom(read, end, count - |ws|, grants - |ws|).outcome)
  {
    ChainIsLongest(read, pos, count, grants, ws, end);
    PrependToNothing(ws, ParseFrom(read, end, count - |ws|, grants - |ws|));
  }

  /** Longest valid prefix: any valid frames that the received bytes start with, up to the
      announced count, are the first ones the parser delivers, unless the allocator failed
      first. In particular a buffer starts with at most one sequence of n frames. */
  lemma ParseIsLongest(read: Reader, b: seq<uint8>, len: nat, pos: nat, count: nat, grants: nat, ws: seq<Wire>)
    requires Complete(read, b, len)
    requires Carries(b, len, pos, ws) && AllValid(ws) && |ws| <= count
    ensures var r := ParseFrom(read, pos, count, grants);
            if |ws| <= grants then
              && ws <= r.frames
              && (|ws| == count ==> r == Parsed(ws, pos + |EncodeFrames(ws)|, Completed))
            else r.outcome == AllocationError && r.frames == ws[..grants]
  {
    var end := pos + |EncodeFrames(ws)|;
    CarriedIsChain(read, b, len, pos, ws);
    ChainIsLongest(read, pos, count, grants, ws, end);
    if |ws| == count && |ws| <= grants {
      PrependToNothing(ws, ParseFrom(read, end, 0, grants - |ws|));
    }
  }

  /** Round trip: a receive buffer that starts with a packet parses to the packet's frames,
      whatever follows it in the buffer. */
  lemma RoundTrip(ws: seq<Wire>, seqNo: uint8, b: seq<uint8>, grants: nat)
    requires |ws| < 0x1_0000 && AllValid(ws) && |ws| <= grants
    requires EncodePacket(ws, seqNo) <= b
    ensures var len := |EncodePacket(ws, seqNo)|;
            Parse(b, len, grants) == Parsed(ws, len, Completed)
  {
    var p := EncodePacket(ws, seqNo);
    HeaderFields(seqNo, |ws|, b);
    assert b[5..|p|] == p[5..] == EncodeFrames(ws);
    ReaderIsComplete(b, |p|);
    ParseIsLongest(ReaderOf(b, |p|), b, |p|, 5, |ws|, grants, ws);
  }

  // ----- Printing inverts parsing

  /** For every buffer and every allocator, where and why the loop stops: it completes exactly
      when it delivered all announced frames; otherwise what it finds at its end decides. */
  lemma {:induction false} ParseCounts(read: Reader, pos: nat, count: nat, grants: nat)
    ensures var r := ParseFrom(read, pos, count, grants);
            var n := |r.frames|;
            && n <= count && n <= grants
            && (r.outcome == Completed <==> n == count)
            && (r.outcome == Incomplete <==> n < count && read(r.end).Short?)
            && (r.outcome == AllocationError <==> n < count && !read(r.end).Short? && n == grants)
            && (r.outcome == Corrupt <==> n < count && n < grants && read(r.end).Truncated?)
            && (r.outcome == NotDefined <==> n < count && n < grants && read(r.end).Undefined?)
    decreases count
  {
    if count > 0 && grants > 0 && read(pos).Got? {
      ParseCounts(read, read(pos).next, count - 1, grants - 1);
    }
  }

  /** More frames than announced are never asked for. */
  lemma {:induction false} EnoughGrants(read: Reader, pos: nat, count: nat, grants: nat, more: nat)
    requires count <= grants && count <= more
    ensures ParseFrom(read, pos, count, grants) == ParseFrom(read, pos, count, more)
    decreases count
  {
    if count > 0 && read(pos).Got? {
      EnoughGrants(read, read(pos).next, count - 1, grants - 1, more - 1);
    }
  }

  lemma {:induction false} ParseIsChain(read: Reader, pos: nat, count: nat, grants: nat)
    ensures var r := ParseFrom(read, pos, count, grants);
            Chain(read, pos, r.frames, r.end)
    decreases count
  {
    if count > 0 && grants > 0 && read(pos).Got? {
      var Got(w, next) := read(pos);
      ParseIsChain(read, next, count - 1, grants - 1);
      assert ParseFrom(read, pos, count, grants).frames[1..] == ParseFrom(read, next, count - 1, grants - 1).frames;
    }
  }

  lemma {:induction false} ChainAccountsForBytes(read: Reader, b: seq<uint8>, len: nat, pos: nat, ws: seq<Wire>,
                                                 end: nat)
    requires Sound(read, b, len) && pos <= |b| && Chain(read, pos, ws, end)
    ensures AllValid(ws) && pos <= end <= |b| && b[pos..end] == EncodeFrames(ws)
    decreases |ws|
  {
    if ws != [] {
      var next := read(pos).next;
      ChainAccountsForBytes(read, b, len, next, ws[1..], end);
      assert b[pos..end] == b[pos..next] + b[next..end];
      EncodeCons(ws[0], ws[1..]);
      assert [ws[0]] + ws[1..] == ws;
    }
  }

  /** For every buffer and every allocator, the frames delivered account for every byte
      consumed. */
  lemma ParseAccountsForBytes(read: Reader, b: seq<uint8>, len: nat, pos: nat, count: nat, grants: nat)
    requires Sound(read, b, len) && pos <= |b|
    ensures var r := ParseFrom(read, pos, count, grants);
            && AllValid(r.frames)
            && pos <= r.end <= |b|
            && b[pos..r.end] == EncodeFrames(r.frames)
  {
    var r := ParseFrom(read, pos, count, grants);
    ParseIsChain(read, pos, count, grants);
    ChainAccountsForBytes(read, b, len, pos, r.frames, r.end);
  }

  /** For every buffer and every allocator, the cursor ends at most one byte past `len`, and
      only after a remote CAN FD frame that is the last one. */
  lemma {:induction false} ParseOverrun(read: Reader, b: seq<uint8>, len: nat, pos: nat, count: nat, grants: nat)
    requires Sound(read, b, len) && pos <= len
    ensures var r := ParseFrom(read, pos, count, grants);
            r.end > len ==>
              && r.end == len + 1 && r.frames != []
              && IsRemoteFd(r.frames[|r.frames| - 1])
    decreases count
  {
    if count > 0 && grants > 0 && read(pos).Got? && read(pos).next <= len {
      ParseOverrun(read, b, len, read(pos).next, count - 1, grants - 1);
    }
  }

  /** Reverse round trip: the encoding is canonical. A packet the parser accepts is printed
      back byte for byte from the frames it delivered. */
  lemma ReverseRoundTrip(b: seq<uint8>, len: nat, grants: nat)
    requires PACKET_BASE_SIZE <= |b| && len <= |b|
    requires Parse(b, len, grants).outcome == Completed
    ensures var r := Parse(b, len, grants);
            && |r.frames| == Count(b)
            && PACKET_BASE_SIZE <= r.end <= |b|
            && EncodePacket(r.frames, b[2]) == b[..r.end]
  {
    var r := Parse(b, len, grants);
    ReaderIsSound(b, len);
    ParseCounts(ReaderOf(b, len), 5, Count(b), grants);
    ParseAccountsForBytes(ReaderOf(b, len), b, len, 5, Count(b), grants);
    HeaderInverse(b);
    assert b[..r.end] == b[..5] + b[5..r.end];
  }

  // ----- Where the parser goes astray

  /** A remote CAN FD frame of which everything but the flags byte was received. */
  predicate EndsInRemoteFd(b: seq<uint8>, len: nat, pos: nat) {
    pos + FRAME_BASE_SIZE == len < |b| && IsRtr(FromBe32(b[pos..pos + 4])) && IsFd(b[pos + 4])
  }

  /** A frame whose flags byte lies behind the buffer, or whose data was received but does not
      fit into a frame. */
  predicate LeavesArrays(b: seq<uint8>, len: nat, pos: nat) {
    pos + FRAME_BASE_SIZE <= len <= |b| &&
    var id, l := FromBe32(b[pos..pos + 4]), b[pos + 4];
    var p := pos + FRAME_BASE_SIZE + FlagCount(l);
    p > |b| || (!IsRtr(id) && DataLen(l) > MAX_DATA && p + DataLen(l) <= len)
  }

  lemma ReadAstray(b: seq<uint8>, len: nat, pos: nat)
    requires len <= |b|
    ensures ReadStep(b, len, pos).Undefined? <==> LeavesArrays(b, len, pos)
    ensures ReadStep(b, len, pos).Got? && ReadStep(b, len, pos).next > len <==> EndsInRemoteFd(b, len, pos)
    ensures EndsInRemoteFd(b, len, pos) ==> ReadStep(b, len, pos).next == len + 1
  {
  }

  lemma ReadsAstray(read: Reader, b: seq<uint8>, len: nat, pos: nat)
    requires len <= |b| && Reads(read, b, len)
    ensures read(pos).Undefined? <==> LeavesArrays(b, len, pos)
    ensures read(pos).Got? && read(pos).next > len <==> EndsInRemoteFd(b, len, pos)
    ensures EndsInRemoteFd(b, len, pos) ==> read(pos).next == len + 1
    ensures pos > len ==> read(pos).Short?
    ensures read(pos).Undefined? ==> pos + FRAME_BASE_SIZE <= len
  {
    assert read(pos) == ReadStep(b, len, pos);
    ReadAstray(b, len, pos);
  }

  /** Received bytes that start with the frames `ws`, which a loop over `count` frames gets past. */
  predicate LeadsWith(b: seq<uint8>, len: nat, count: nat, grants: nat, ws: seq<Wire>) {
    && |ws| < count && |ws| < grants
    && AllValid(ws) && Carries(b, len, PACKET_BASE_SIZE, ws)
  }

  function BehindFrames(ws: seq<Wire>): nat { PACKET_BASE_SIZE + |EncodeFrames(ws)| }

  lemma ParsePast(read: Reader, b: seq<uint8>, len: nat, count: nat, grants: nat, ws: seq<Wire>)
    requires Complete(read, b, len) && LeadsWith(b, len, count, grants, ws)
    ensures ParseFrom(read, PACKET_BASE_SIZE, count, grants)
         == Prepend(ws, ParseFrom(read, BehindFrames(ws), count - |ws|, grants - |ws|))
  {
    CarriedIsChain(read, b, len, PACKET_BASE_SIZE, ws);
    ChainIsLongest(read, PACKET_BASE_SIZE, count, grants, ws, BehindFrames(ws));
  }

  lemma UndefinedBehind(read: Reader, b: seq<uint8>, len: nat, count: nat, grants: nat, ws: seq<Wire>)
    requires Complete(read, b, len) && LeadsWith(b, len, count, grants, ws) && read(BehindFrames(ws)).Undefined?
    ensures ParseFrom(read, PACKET_BASE_SIZE, count, grants).outcome == NotDefined
  {
    ParsePast(read, b, len, count, grants, ws);
  }

  lemma OverrunBehind(read: Reader, b: seq<uint8>, len: nat, count: nat, grants: nat, ws: seq<Wire>)
    requires Complete(read, b, len) && LeadsWith(b, len, count, grants, ws)
    requires read(BehindFrames(ws)).Got? && read(BehindFrames(ws)).next == len + 1 && read(len + 1).Short?
    ensures ParseFrom(read, PACKET_BASE_SIZE, count, grants).end == len + 1
  {
    ParsePast(read, b, len, count, grants, ws);
    var rest := ParseFrom(read, len + 1, count - |ws| - 1, grants - |ws| - 1);
    assert rest.end == len + 1;
  }

  /** What a parse that ends inside the received bytes got past. */
  lemma ParsedLeads(read: Reader, b: seq<uint8>, len: nat, count: nat, grants: nat)
    requires PACKET_BASE_SIZE <= |b| && Sound(read, b, len)
    ensures var r := ParseFrom(read, PACKET_BASE_SIZE, count, grants);
            && BehindFrames(r.frames) == r.end
            && (r.end <= len <= |b| && |r.frames| < count && |r.frames| < grants ==>
                  LeadsWith(b, len, count, grants, r.frames))
  {
    ParseAccountsForBytes(read, b, len, PACKET_BASE_SIZE, count, grants);
  }

  lemma OverrunLeads(read: Reader, b: seq<uint8>, len: nat, count: nat, grants: nat)
    requires PACKET_BASE_SIZE <= len <= |b| && Sound(read, b, len)
    requires ParseFrom(read, PACKET_BASE_SIZE, count, grants).end > len
    ensures var r := ParseFrom(read, PACKET_BASE_SIZE, count, grants);
            && r.frames != []
            && LeadsWith(b, len, count, grants, r.frames[..|r.frames| - 1])
            && EndsInRemoteFd(b, len, BehindFrames(r.frames[..|r.frames| - 1]))
  {
    var r := ParseFrom(read, PACKET_BASE_SIZE, count, grants);
    ParseCounts(read, PACKET_BASE_SIZE, count, grants);
    ParseOverrun(read, b, len, PACKET_BASE_SIZE, count, grants);
    ParseAccountsForBytes(read, b, len, PACKET_BASE_SIZE, count, grants);
    OverrunFrames(b, len, r.frames);
  }

  lemma LoopNotDefinedIff(read: Reader, b: seq<uint8>, len: nat, count: nat, grants: nat)
    requires PACKET_BASE_SIZE <= |b| && len <= |b|
    requires Reads(read, b, len) && Complete(read, b, len) && Sound(read, b, len)
    ensures ParseFrom(read, PACKET_BASE_SIZE, count, grants).outcome == NotDefined
       <==> exists ws :: LeadsWith(b, len, count, grants, ws) && LeavesArrays(b, len, BehindFrames(ws))
  {
    var r := ParseFrom(read, PACKET_BASE_SIZE, count, grants);
    if r.outcome == NotDefined {
      ParseCounts(read, PACKET_BASE_SIZE, count, grants);
      ReadsAstray(read, b, len, r.end);
      ParsedLeads(read, b, len, count, grants);
    }
    if ws :| LeadsWith(b, len, count, grants, ws) && LeavesArrays(b, len, BehindFrames(ws)) {
      ReadsAstray(read, b, len, BehindFrames(ws));
      UndefinedBehind(read, b, len, count, grants, ws);
    }
  }

  lemma LoopOverrunIff(read: Reader, b: seq<uint8>, len: nat, count: nat, grants: nat)
    requires PACKET_BASE_SIZE <= len <= |b| && Reads(read, b, len) && Complete(read, b, len) && Sound(read, b, len)
    ensures ParseFrom(read, PACKET_BASE_SIZE, count, grants).end > len
       <==> exists ws :: LeadsWith(b, len, count, grants, ws) && EndsInRemoteFd(b, len, BehindFrames(ws))
  {
    if ParseFrom(read, PACKET_BASE_SIZE, count, grants).end > len {
      OverrunLeads(read, b, len, count, grants);
    }
    if ws :| LeadsWith(b, len, count, grants, ws) && EndsInRemoteFd(b, len, BehindFrames(ws)) {
      ReadsAstray(read, b, len, BehindFrames(ws));
      ReadsAstray(read, b, len, len + 1);
      OverrunBehind(read, b, len, count, grants, ws);
    }
  }

  predicate HasHeader(b: seq<uint8>)
    requires PACKET_BASE_SIZE <= |b|
  {
    b[0] == FRAME_VERSION && b[1] == OP_DATA
  }

  /** The parser leaves its arrays if and only if the packet brings it to a frame that makes it
      do so. */
  lemma NotDefinedIff(b: seq<uint8>, len: nat, grants: nat)
    requires PACKET_BASE_SIZE <= |b| && len <= |b|
    ensures Parse(b, len, grants).outcome == NotDefined
       <==> HasHeader(b)
            && exists ws :: LeadsWith(b, len, Count(b), grants, ws) && LeavesArrays(b, len, BehindFrames(ws))
  {
    ReaderIsComplete(b, len);
    ReaderIsSound(b, len);
    LoopNotDefinedIff(ReaderOf(b, len), b, len, Count(b), grants);
  }

  /** The cursor ends past the received bytes, by one, if and only if all but the last byte of a
      remote CAN FD frame was received and the parser gets to it. */
  lemma OverrunIff(b: seq<uint8>, len: nat, grants: nat)
    requires PACKET_BASE_SIZE <= len <= |b|
    ensures Parse(b, len, grants).end > len
       <==> HasHeader(b)
            && exists ws :: LeadsWith(b, len, Count(b), grants, ws) && EndsInRemoteFd(b, len, BehindFrames(ws))
  {
    ReaderIsComplete(b, len);
    ReaderIsSound(b, len);
    LoopOverrunIff(ReaderOf(b, len), b, len, Count(b), grants);
  }

  lemma SplitLast(b: seq<uint8>, from: nat, to: nat, ws: seq<Wire>)
    requires from <= to <= |b| && ws != [] && b[from..to] == EncodeFrames(ws)
    ensures var init, w := ws[..|ws| - 1], ws[|ws| - 1];
            var m := from + |EncodeFrames(init)|;
            && m + |EncodeFrame(w)| == to
            && b[from..m] == EncodeFrames(init) && b[m..to] == EncodeFrame(w)
  {
    var init, w := ws[..|ws| - 1], ws[|ws| - 1];
    assert ws == init + [w];
    EncodeAppend(init, w);
    Parts(EncodeFrames(init), EncodeFrame(w), b[from..to]);
    var k, n := |EncodeFrames(init)|, to - from;
    SliceOfSlice(b, from, to, 0, k);
    SliceOfSlice(b, from, to, k, n);
    assert b[from..to][..k] == b[from..to][0..k] && b[from..to][k..] == b[from..to][k..n];
  }

  lemma OverrunFrames(b: seq<uint8>, len: nat, ws: seq<Wire>)
    requires PACKET_BASE_SIZE <= len < |b| && AllValid(ws)
    requires ws != [] && IsRemoteFd(ws[|ws| - 1]) && b[5..len + 1] == EncodeFrames(ws)
    ensures var init := ws[..|ws| - 1];
            && Carries(b, len, PACKET_BASE_SIZE, init) && AllValid(init)
            && EndsInRemoteFd(b, len, BehindFrames(init))
  {
    var init, w := ws[..|ws| - 1], ws[|ws| - 1];
    SplitLast(b, 5, len + 1, ws);
    assert w.Valid() && |EncodeFrame(w)| == 6;
    RemoteFdAt(b, len, BehindFrames(init), w);
  }

  lemma RemoteFdAt(b: seq<uint8>, len: nat, p: nat, w: Wire)
    requires p + 5 == len < |b| && IsRemoteFd(w) && b[p..len + 1] == EncodeFrame(w)
    ensures EndsInRemoteFd(b, len, p)
  {
    EncodedParts(w);
    SliceOfSlice(b, p, len + 1, 0, 4);
    assert b[p..len + 1][..4] == b[p..len + 1][0..4];
    assert b[p + 4] == b[p..len + 1][4];
    Be32Inverse(w.id, Be32(w.id));
  }

  /** Such a packet: ten bytes received, the flags byte behind them is taken along. */
  lemma OverrunningPacket()
    ensures Parse([2, 0, 0, 0, 1, 0x40, 0, 0, 0, 0x80, 7], 10, 1)
         == Parsed([Wire(0x4000_0000, 0x80, [7], [])], 11, Completed)
  {
    var b: seq<uint8> := [2, 0, 0, 0, 1, 0x40, 0, 0, 0, 0x80, 7];
    assert b[5..9] == [0x40, 0, 0, 0] && b[10..11] == [7] && b[11..11] == [];
  }

  /** A data frame that declares 65 bytes and brings them. */
  lemma UndefinedPacket(b: seq<uint8>, len: nat, grants: nat)
    requires [2, 0, 0, 0, 1, 0, 0, 0, 0, 65] <= b && 75 <= len <= |b| && grants > 0
    ensures Parse(b, len, grants) == Parsed([], 5, NotDefined)
  {
    var h: seq<uint8> := [2, 0, 0, 0, 1, 0, 0, 0, 0, 65];
    assert b[..10] == h;
    assert b[5..9] == h[5..9] && b[9] == h[9] && b[0] == h[0] && b[1] == h[1] && b[3] == h[3] && b[4] == h[4];
  }

  /** The length of a classic frame is held against the size of the data array only. */
  lemma LongClassicFrame(w: Wire, seqNo: uint8)
    requires w.Valid() && !IsFd(w.len) && |w.data| > 8
    ensures var p := EncodePacket([w], seqNo);
            Parse(p, |p|, 1) == Parsed([w], |p|, Completed)
  {
    var p := EncodePacket([w], seqNo);
    assert p <= p;
    RoundTrip([w], seqNo, p, 1);
  }
}
