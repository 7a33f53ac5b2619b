/**
 CAN frames as the tunnel sees them: the fields of `struct canfd_frame`, the bit tests and
 masks applied to `can_id` and `len`, and the part of a frame that goes on the wire.

 Bit operations are written as arithmetic on bounded integers: masking off the top bits of an
 unsigned number is a remainder, testing a bit asks for a quotient's parity.
 */
module Can {

  type uint8 = x: int | 0 <= x < 0x100
  type uint16 = x: int | 0 <= x < 0x1_0000
  type uint32 = x: int | 0 <= x < 0x1_0000_0000

  /** CANFD_MAX_DLEN, the size of the data array embedded in a frame. */
  const MAX_DATA := 64
  const FRAME_BASE_SIZE := 5
  const PACKET_BASE_SIZE := 5
  const FRAME_VERSION: uint8 := 2
  const OP_DATA: uint8 := 0

  type Payload = s: seq<uint8> | |s| == MAX_DATA witness seq(MAX_DATA, _ => 0)

  /** `len & CANFD_FRAME` */
  predicate IsFd(len: uint8) { len >= 0x80 }

  /** `canfd_len`: `len & ~CANFD_FRAME` */
  function DataLen(len: uint8): nat { len % 0x80 }

  /** `can_id & CAN_RTR_FLAG` */
  predicate IsRtr(id: uint32) { id / 0x4000_0000 % 2 == 1 }

  /** `can_id & CAN_EFF_FLAG` */
  predicate IsExtended(id: uint32) { id >= 0x8000_0000 }

  /** The identifier that frames are sorted by and that the timeout table is indexed by. */
  function MaskedId(id: uint32): uint32 {
    if IsExtended(id) then id % 0x2000_0000 else id % 0x800
  }

  function Bit(on: bool, weight: nat): nat { if on then weight else 0 }

  /** The tests and the mask take apart what the kernel's flags and identifier put together. */
  lemma IdentifierParts(eff: bool, rtr: bool, err: bool, raw: nat)
    requires raw < if eff then 0x2000_0000 else 0x800
    ensures var id := Bit(eff, 0x8000_0000) + Bit(rtr, 0x4000_0000) + Bit(err, 0x2000_0000) + raw;
            IsExtended(id) == eff && IsRtr(id) == rtr && MaskedId(id) == raw
  {
  }

  /** The length byte is the CAN FD mark and the length. */
  lemma LengthParts(fd: bool, n: nat)
    requires n < 0x80
    ensures var len := Bit(fd, 0x80) + n;
            IsFd(len) == fd && DataLen(len) == n
  {
  }

  /** CAN FD frames carry one flags byte. */
  function FlagCount(len: uint8): nat { if IsFd(len) then 1 else 0 }

  /** Remote frames carry a length but no data. */
  function DataCount(id: uint32, len: uint8): nat { if IsRtr(id) then 0 else DataLen(len) }

  /** The value of a frame: everything its memory holds. */
  datatype CanFrame = CanFrame(id: uint32, len: uint8, flags: uint8, data: Payload) {

    /** The payload a data frame declares fits into its data array. */
    predicate Storable() { DataCount(id, len) <= MAX_DATA }

    /** The bytes the frame buffer and the packer's overflow test reserve for this frame. */
    function SlotSize(): nat { FRAME_BASE_SIZE + DataLen(len) + FlagCount(len) }

    /** The bytes this frame takes in a packet. */
    function WireSize(): nat { FRAME_BASE_SIZE + FlagCount(len) + DataCount(id, len) }

    function Key(): nat { MaskedId(id) }

    /** What the other end can observe. Flags of a classic frame, data of a remote frame and
        data bytes past the declared length are not transmitted. */
    function View(): Wire {
      var n := DataCount(id, len);
      Wire(id, len, [flags][..FlagCount(len)], data[..if n <= MAX_DATA then n else MAX_DATA])
    }
  }

  datatype Wire = Wire(id: uint32, len: uint8, flags: seq<uint8>, data: seq<uint8>) {
    predicate Valid() {
      |flags| == FlagCount(len) && |data| == DataCount(id, len) <= MAX_DATA
    }
  }

  /** The reserved bytes are the same for a remote frame, which leaves those of its data unused; a
      data frame writes as much as is reserved for it. */
  lemma SlotIsReserved(f: CanFrame)
    ensures f.SlotSize() == 5 + f.len % 0x80 + f.len / 0x80
    ensures f.SlotSize() - f.WireSize() == if f.id / 0x4000_0000 % 2 == 1 then f.len % 0x80 else 0
  {
  }

  // ----- Reading from a CAN socket

  const CAN_MTU := 16
  const CANFD_MTU := 72

  /** What a read from the socket left in the frame's memory: the header and the first bytes of
      the data array. */
  datatype Read = Failed | Raw(size: nat, id: uint32, len: uint8, flags: uint8, data: seq<uint8>) {

    predicate Complete() { Raw? && (size == CAN_MTU || size == CANFD_MTU) }

    /** The kernel's promise about complete frames. */
    predicate Sane() { Complete() ==> |data| == size - 8 && DataLen(len) <= |data| }

    /** The frame as its sender on the CAN bus meant it. */
    function Image(): Wire
      requires Complete() && Sane()
    {
      var fd := size == CANFD_MTU;
      Wire(id, Marked(len, fd), if fd then [flags] else [], if IsRtr(id) then [] else data[..DataLen(len)])
    }
  }

  /** A complete read has one of two sizes, and its size says whether the frame is CAN FD: only then
      does it show flags. Data is shown as far as the length goes, none of a remote frame. */
  lemma ImageTells(read: Read)
    requires read.Sane()
    ensures read.Complete() <==> read.Raw? && (read.size == 16 || read.size == 72)
    ensures read.Complete() ==>
              var w := read.Image();
              && w.id == read.id && w.Valid()
              && w.len == (if read.size == 72 then 0x80 else 0) + read.len % 0x80
              && w.flags == (if read.size == 72 then [read.flags] else [])
              && w.data == (if read.id / 0x4000_0000 % 2 == 1 then [] else read.data[..read.len % 0x80])
  {
  }

  /** `len |= CANFD_FRAME` or `len &= ~CANFD_FRAME` */
  function Marked(len: uint8, fd: bool): (r: uint8)
    ensures IsFd(r) == fd && DataLen(r) == DataLen(len)
  {
    DataLen(len) + if fd then 0x80 else 0
  }

  // ----- Lists of frames

  function Views(fs: seq<CanFrame>): (ws: seq<Wire>)
    ensures |ws| == |fs|
  {
    if fs == [] then [] else [fs[0].View()] + Views(fs[1..])
  }

  lemma {:induction false} ViewsConcat(a: seq<CanFrame>, b: seq<CanFrame>)
    ensures Views(a + b) == Views(a) + Views(b)
  {
    if a == [] {
      assert a + b == b;
    } else {
      assert (a + b)[1..] == a[1..] + b;
      ViewsConcat(a[1..], b);
    }
  }

  lemma {:induction false} ViewsAt(fs: seq<CanFrame>)
    ensures forall i :: 0 <= i < |fs| ==> Views(fs)[i] == fs[i].View()
  {
    if fs != [] {
      ViewsAt(fs[1..]);
    }
  }

  lemma ViewsSplit(fs: seq<CanFrame>, k: nat)
    requires k <= |fs|
    ensures Views(fs[..k]) == Views(fs)[..k] && Views(fs[k..]) == Views(fs)[k..]
  {
    assert fs == fs[..k] + fs[k..];
    ViewsConcat(fs[..k], fs[k..]);
  }

  lemma ViewsPrefix(fs: seq<CanFrame>, i: nat)
    requires i < |fs|
    ensures Views(fs[..i + 1]) == Views(fs[..i]) + [fs[i].View()]
  {
    assert fs[..i + 1] == fs[..i] + [fs[i]];
    ViewsConcat(fs[..i], [fs[i]]);
  }

  predicate AllStorable(fs: seq<CanFrame>) {
    forall i :: 0 <= i < |fs| ==> fs[i].Storable()
  }

  lemma PermutationIsStorable(p: seq<CanFrame>, q: seq<CanFrame>)
    requires multiset(p) <= multiset(q) && AllStorable(q)
    ensures AllStorable(p)
  {
    forall i | 0 <= i < |p| ensures p[i].Storable() {
      assert p[i] in multiset(p);
      assert p[i] in multiset(q);
      assert p[i] in q;
    }
  }

  /** A frame as a mutable object with identity; it is recycled between the lists of a
      frame buffer and keeps stale bytes wherever a writer does not overwrite them. */
  class Frame {
    var id: uint32
    var len: uint8
    var flags: uint8
    var data: Payload

    constructor ()
      ensures Zeroed()
    {
      id, len, flags, data := 0, 0, 0, seq(MAX_DATA, _ => 0);
    }

    predicate Zeroed()
      reads this
    {
      id == 0 && len == 0 && flags == 0 && forall i :: 0 <= i < 64 ==> data[i] == 0
    }

    function Value(): CanFrame
      reads this
    {
      CanFrame(id, len, flags, data)
    }
  }

  ghost function Values(fs: seq<Frame>): (vs: seq<CanFrame>)
    reads fs
    ensures |vs| == |fs|
  {
    if fs == [] then [] else [fs[0].Value()] + Values(fs[1..])
  }

  lemma {:induction false} ValuesAt(fs: seq<Frame>)
    ensures forall i :: 0 <= i < |fs| ==> Values(fs)[i] == fs[i].Value()
  {
    if fs != [] {
      ValuesAt(fs[1..]);
    }
  }

  lemma {:induction false} ValuesConcat(a: seq<Frame>, b: seq<Frame>)
    ensures Values(a + b) == Values(a) + Values(b)
  {
    if a == [] {
      assert a + b == b;
    } else {
      assert (a + b)[1..] == a[1..] + b;
      ValuesConcat(a[1..], b);
    }
  }

  lemma ValuesAppend(fs: seq<Frame>, f: Frame)
    ensures Values(fs + [f]) == Values(fs) + [f.Value()]
  {
    ValuesConcat(fs, [f]);
  }

  lemma ValuesSplit(fs: seq<Frame>, k: nat)
    requires k <= |fs|
    ensures Values(fs[..k]) == Values(fs)[..k] && Values(fs[k..]) == Values(fs)[k..]
  {
    assert fs == fs[..k] + fs[k..];
    ValuesConcat(fs[..k], fs[k..]);
  }

  /** What the other end can observe of one more frame. */
  lemma ShownAppend(fs: seq<Frame>, f: Frame)
    ensures Views(Values(fs + [f])) == Views(Values(fs)) + [f.Value().View()]
  {
    ValuesAppend(fs, f);
    ViewsConcat(Values(fs), [f.Value()]);
  }
}
