/**
 The tunnel as a whole: frames queued at one end, packed, sent, unpacked and queued at the
 other. `Packing` moves frames between queue and packets, `Codec` gives packets their bytes,
 and the lemmas here put the two together. Frames appear as they go on the wire.
 */
module Pipeline {
  import opened Can
  import opened Codec
  import opened Format
  import opened Inbox
  import opened Packing
  import opened Receiver
  import opened Sequences

  ghost predicate Small(batches: seq<seq<Wire>>) {
    forall i :: 0 <= i < |batches| ==> |batches[i]| < 0x1_0000
  }

  /** The sequence number of the n-th packet from `seqNo` on. */
  function Numbered(seqNo: uint8, n: nat): uint8 { (seqNo + n) % 0x100 }

  /** The packets that carry `batches`, numbered from `seqNo` on. */
  function Packets(batches: seq<seq<Wire>>, seqNo: uint8): seq<seq<uint8>>
    requires Small(batches)
  {
    if batches == [] then []
    else [EncodePacket(batches[0], seqNo)] + Packets(batches[1..], Numbered(seqNo, 1))
  }

  /** The frames that a sequence of packets delivers. */
  function DecodedAll(packets: seq<seq<uint8>>): seq<Wire> {
    if packets == [] then [] else Decoded(packets[0]) + DecodedAll(packets[1..])
  }

  lemma NumberedNext(seqNo: uint8, n: nat)
    ensures Numbered(Numbered(seqNo, 1), n) == Numbered(seqNo, n + 1)
    ensures Numbered(Numbered(seqNo, n), 1) == Numbered(seqNo, n + 1)
  {
    RemainderOfSum(seqNo + 1, n);
    RemainderOfSum(seqNo + n, 1);
  }

  /** Each packet by itself: they are numbered consecutively modulo 256. */
  lemma {:induction false} PacketAt(batches: seq<seq<Wire>>, seqNo: uint8, i: nat)
    requires Small(batches) && i < |batches|
    ensures |Packets(batches, seqNo)| == |batches|
    ensures Packets(batches, seqNo)[i] == EncodePacket(batches[i], (seqNo + i) % 0x100)
    decreases |batches|
  {
    if i > 0 {
      PacketAt(batches[1..], Numbered(seqNo, 1), i - 1);
      NumberedNext(seqNo, i - 1);
    } else if |batches| > 1 {
      PacketAt(batches[1..], Numbered(seqNo, 1), 0);
    }
  }

  lemma PacketsAreNumbered(batches: seq<seq<Wire>>, seqNo: uint8)
    requires Small(batches)
    ensures |Packets(batches, seqNo)| == |batches|
    ensures forall i :: 0 <= i < |batches| ==> CarriesNumber(Packets(batches, seqNo)[i], (seqNo + i) % 0x100)
  {
    forall i | 0 <= i < |batches|
      ensures |Packets(batches, seqNo)| == |batches|
      ensures CarriesNumber(Packets(batches, seqNo)[i], (seqNo + i) % 0x100)
    {
      PacketAt(batches, seqNo, i);
    }
  }

  /** And each has the documented layout. */
  lemma PacketIsLaidOut(batches: seq<seq<Wire>>, seqNo: uint8, i: nat)
    requires Small(batches) && i < |batches| && AllValid(batches[i])
    ensures |Packets(batches, seqNo)| == |batches|
    ensures LaidOut(Packets(batches, seqNo)[i], batches[i], (seqNo + i) % 0x100)
  {
    PacketAt(batches, seqNo, i);
    PacketIff(Packets(batches, seqNo)[i], batches[i], (seqNo + i) % 0x100);
  }

  /** The third byte of a packet is its number. */
  predicate CarriesNumber(p: seq<uint8>, n: nat) { 3 <= |p| && p[2] == n }

  lemma RemainderOfSum(a: nat, b: nat)
    ensures (a % 0x100 + b) % 0x100 == (a + b) % 0x100
  {
    assert a + b == 0x100 * (a / 0x100) + (a % 0x100 + b);
  }

  lemma {:induction false} PacketsAppend(batches: seq<seq<Wire>>, batch: seq<Wire>, seqNo: uint8, last: seq<uint8>)
    requires Small(batches) && |batch| < 0x1_0000
    requires last == EncodePacket(batch, Numbered(seqNo, |batches|))
    ensures Small(batches + [batch])
    ensures Packets(batches + [batch], seqNo) == Packets(batches, seqNo) + [last]
  {
    if batches == [] {
      assert batches + [batch] == [batch] && [batch][1..] == [];
    } else {
      assert (batches + [batch])[1..] == batches[1..] + [batch];
      NumberedNext(seqNo, |batches| - 1);
      PacketsAppend(batches[1..], batch, Numbered(seqNo, 1), last);
    }
  }

  /** What was sent since `before`, when the next number was `seqNo`, are the packets of
      `batches`. */
  ghost predicate SentSince(packets: seq<seq<uint8>>, next: uint8, before: seq<seq<uint8>>, seqNo: uint8,
                            batches: seq<seq<Wire>>) {
    && Small(batches)
    && packets == before + Packets(batches, seqNo)
    && next == Numbered(seqNo, |batches|)
  }

  lemma SentOneMore(packets: seq<seq<uint8>>, next: uint8, before: seq<seq<uint8>>, seqNo: uint8,
                    batches: seq<seq<Wire>>, batch: seq<Wire>)
    requires SentSince(packets, next, before, seqNo, batches) && |batch| < 0x1_0000
    ensures SentSince(packets + [EncodePacket(batch, next)], (next + 1) % 0x100, before, seqNo, batches + [batch])
  {
    var last := EncodePacket(batch, next);
    PacketsAppend(batches, batch, seqNo, last);
    NumberedNext(seqNo, |batches|);
    Associative(before, Packets(batches, seqNo), [last]);
  }

  /** From `before` on the packets are numbered consecutively modulo 256, starting with `seqNo`. */
  ghost predicate NumberedFrom(packets: seq<seq<uint8>>, next: uint8, before: seq<seq<uint8>>, seqNo: uint8) {
    && before <= packets
    && next == (seqNo + |packets| - |before|) % 0x100
    && forall i :: |before| <= i < |packets| ==> CarriesNumber(packets[i], (seqNo + i - |before|) % 0x100)
  }

  lemma SentIsNumbered(packets: seq<seq<uint8>>, next: uint8, before: seq<seq<uint8>>, seqNo: uint8,
                       batches: seq<seq<Wire>>)
    requires SentSince(packets, next, before, seqNo, batches)
    ensures NumberedFrom(packets, next, before, seqNo)
  {
    PacketsAreNumbered(batches, seqNo);
    var sent, n := Packets(batches, seqNo), |before|;
    forall i | n <= i < |packets| ensures CarriesNumber(packets[i], (seqNo + i - n) % 0x100) {
      assert packets[i] == sent[i - n];
    }
  }

  lemma NumberedOn(before: seq<seq<uint8>>, seqNo: uint8, mid: seq<seq<uint8>>, next: uint8,
                   packets: seq<seq<uint8>>, last: uint8)
    requires NumberedFrom(mid, next, before, seqNo) && NumberedFrom(packets, last, mid, next)
    ensures NumberedFrom(packets, last, before, seqNo)
  {
    var n, m := |before|, |mid|;
    RemainderOfSum(seqNo + m - n, |packets| - m);
    forall i | n <= i < |packets| ensures CarriesNumber(packets[i], (seqNo + i - n) % 0x100) {
      if i < m {
        assert packets[i] == mid[i];
      } else {
        RemainderOfSum(seqNo + m - n, i - m);
      }
    }
  }

  lemma ValidParts(a: seq<Wire>, b: seq<Wire>)
    requires AllValid(a + b)
    ensures AllValid(a) && AllValid(b)
  {
    forall i | 0 <= i < |a| ensures a[i].Valid() { assert a[i] == (a + b)[i]; }
    forall i | 0 <= i < |b| ensures b[i].Valid() { assert b[i] == (a + b)[|a| + i]; }
  }

  lemma PartIsValid(p: seq<Wire>, q: seq<Wire>)
    requires multiset(p) <= multiset(q) && AllValid(q)
    ensures AllValid(p)
  {
    forall i | 0 <= i < |p| ensures p[i].Valid() {
      assert p[i] in multiset(p);
      assert p[i] in multiset(q);
      assert p[i] in q;
    }
  }

  lemma ValidAppend(batches: seq<seq<Wire>>, batch: seq<Wire>)
    requires AllValid(Flatten(batches)) && AllValid(batch)
    ensures AllValid(Flatten(batches + [batch]))
  {
    FlattenAppend(batches, batch);
    var s, n := Flatten(batches) + batch, |Flatten(batches)|;
    forall i | 0 <= i < |s| ensures s[i].Valid() {
      assert i >= n ==> s[i] == batch[i - n];
    }
  }

  lemma FlushIsValid(q: seq<Wire>, r: Rules<Wire>)
    requires AllValid(q)
    ensures AllValid(Sent(q, r)) && AllValid(Left(q, r))
  {
    FlushConserves(q, r);
    PartIsValid(Sent(q, r), q);
    PartIsValid(Left(q, r), q);
  }

  /** Whatever was packed into however many packets, the other end sees it in the order sent. */
  lemma {:induction false} DecodedPackets(batches: seq<seq<Wire>>, seqNo: uint8)
    requires Small(batches) && AllValid(Flatten(batches))
    ensures DecodedAll(Packets(batches, seqNo)) == Flatten(batches)
  {
    if batches != [] {
      ValidParts(batches[0], Flatten(batches[1..]));
      var p := EncodePacket(batches[0], seqNo);
      assert p <= p;
      RoundTrip(batches[0], seqNo, p, 0x1_0000);
      DecodedPackets(batches[1..], Numbered(seqNo, 1));
    }
  }

  // ----- Packets keep to the limit

  ghost predicate Fitting(batches: seq<seq<Wire>>, r: Rules<Wire>) {
    forall i :: 0 <= i < |batches| ==> r.base + Sum(batches[i], r.wire) <= r.limit
  }

  lemma FittingIsSmall(batches: seq<seq<Wire>>, r: Rules<Wire>)
    requires Framed(r) && Fitting(batches, r)
    ensures Small(batches)
  {
    forall i | 0 <= i < |batches| ensures |batches[i]| < 0x1_0000 {
      AtLeastFiveEach(batches[i], r.wire);
    }
  }

  lemma SentFits(q: seq<Wire>, r: Rules<Wire>)
    requires Framed(r)
    ensures r.base + Sum(Sent(q, r), r.wire) <= r.limit && |Sent(q, r)| < 0x1_0000
  {
    CutFits(Offered(q, r), r, r.base);
    CountCannotWrap(Offered(q, r), r);
  }

  lemma {:induction false} RunsFit(p: Pipe<Wire>, es: seq<Event<Wire>>, r: Rules<Wire>, reserve: nat)
    requires Framed(r) && Fitting(p.batches, r)
    ensures Fitting(Run(p, es, r, reserve).batches, r)
    decreases |es|
  {
    if es != [] {
      SentFits(p.queue, r);
      RunsFit(Packing.Step(p, es[0], r, reserve), es[1..], r, reserve);
    }
  }

  lemma {:induction false} DrainsFit(q: seq<Wire>, r: Rules<Wire>)
    requires Framed(r) && AllFitAlone(q, r)
    ensures Fitting(Drain(q, r), r)
    decreases |q|
  {
    if q != [] {
      FlushProgresses(q, r);
      SentFits(q, r);
      DrainsFit(Left(q, r), r);
    }
  }

  // ----- First in, first out

  const Idle: Pipe<Wire> := Pipe([], [], false)

  lemma PromptRun(es: seq<Event<Wire>>, limit: uint16)
    requires PACKET_BASE_SIZE <= limit && AllValid(Inserted(es))
    requires Prompt(Idle, es, WireRules(false, limit), FRAME_BASE_SIZE)
    ensures var r := WireRules(false, limit);
            var p := Run(Idle, es, r, FRAME_BASE_SIZE);
            && Fitting(p.batches, r) && Small(p.batches) && AllValid(Flatten(p.batches))
            && Flatten(p.batches) + p.queue == Inserted(es)
  {
    var r := WireRules(false, limit);
    var p := Run(Idle, es, r, FRAME_BASE_SIZE);
    RulesAreFramed(false, limit);
    RunsFit(Idle, es, r, FRAME_BASE_SIZE);
    FittingIsSmall(p.batches, r);
    PromptRunsAreFifo(Idle, es, r, FRAME_BASE_SIZE, []);
    assert Flatten(p.batches) + p.queue == Inserted(es);
    ValidParts(Flatten(p.batches), p.queue);
  }

  /** Whole-run order, sorting off: if every flush that the size threshold asks for comes before
      the next insertion, then at any time what all packets together decode to, followed by
      what is still queued, is what was inserted. */
  lemma TunnelIsFifo(es: seq<Event<Wire>>, limit: uint16, seqNo: uint8)
    requires PACKET_BASE_SIZE <= limit && AllValid(Inserted(es))
    requires Prompt(Idle, es, WireRules(false, limit), FRAME_BASE_SIZE)
    ensures var p := Run(Idle, es, WireRules(false, limit), FRAME_BASE_SIZE);
            && Small(p.batches)
            && DecodedAll(Packets(p.batches, seqNo)) + p.queue == Inserted(es)
  {
    PromptRun(es, limit);
    DecodedPackets(Run(Idle, es, WireRules(false, limit), FRAME_BASE_SIZE).batches, seqNo);
  }

  // ----- Late flushes

  function Puts(q: seq<Wire>): seq<Event<Wire>> {
    if q == [] then [] else [Put(q[0])] + Puts(q[1..])
  }

  lemma {:induction false} PutsFill(p: Pipe<Wire>, q: seq<Wire>, r: Rules<Wire>, reserve: nat)
    ensures var p' := Run(p, Puts(q), r, reserve);
            p'.queue == p.queue + q && p'.batches == p.batches
    decreases |q|
  {
    if q == [] {
      assert p.queue + q == p.queue;
    } else {
      assert Puts(q)[1..] == Puts(q[1..]);
      PutsFill(Packing.Step(p, Put(q[0]), r, reserve), q[1..], r, reserve);
      Associative(p.queue, [q[0]], q[1..]);
      assert [q[0]] + q[1..] == q;
    }
  }

  /** Frames of one size fill a packet evenly. */
  lemma {:induction false} UniformCut(q: seq<Wire>, r: Rules<Wire>, cursor: nat, k: nat)
    requires forall i :: 0 <= i < |q| ==> r.slot(q[i]) == r.wire(q[i]) == 13
    requires k <= |q| && cursor + 13 * k <= r.limit && (k < |q| ==> cursor + 13 * k + 13 > r.limit)
    ensures CutFrom(q, r, cursor) == k
  {
    if k > 0 {
      UniformCut(q[1..], r, cursor + 13, k - 1);
    }
  }

  /** Where the order is lost, at every packet size from 31 bytes on (and so with 114 frames at
      the 1472 bytes of UDP): two frames of 8 data bytes more than a packet takes, queued before
      the flush comes. The last two arrive exchanged. */
  lemma LateFlushReorders(q: seq<Wire>, limit: uint16, seqNo: uint8)
    requires 31 <= limit && |q| == (limit - PACKET_BASE_SIZE) / 13 + 2
    requires forall i :: 0 <= i < |q| ==> q[i].Valid() && q[i].len == 8 && !IsRtr(q[i].id)
    ensures var p := Run(Idle, Puts(q) + [Flush, Flush], WireRules(false, limit), FRAME_BASE_SIZE);
            var k := |q| - 2;
            && Small(p.batches) && p.queue == []
            && DecodedAll(Packets(p.batches, seqNo)) == q[..k] + [q[k + 1], q[k]]
  {
    var r, k := WireRules(false, limit), |q| - 2;
    var last := [q[k + 1], q[k]];
    LateFlush(q, r, k, last);
    FlattenTwo(q[..k], last);
    var s := q[..k] + last;
    forall i | 0 <= i < |s| ensures s[i].Valid() {
      assert i < k ==> s[i] == q[i];
    }
    assert Small([q[..k], last]);
    DecodedPackets([q[..k], last], seqNo);
  }

  lemma LateFlush(q: seq<Wire>, r: Rules<Wire>, k: nat, last: seq<Wire>)
    requires !r.sort && r.base + 13 * k <= r.limit < r.base + 13 * k + 13 && 2 <= k == |q| - 2
    requires forall i :: 0 <= i < |q| ==> r.slot(q[i]) == r.wire(q[i]) == 13
    requires last == [q[k + 1], q[k]]
    ensures Run(Idle, Puts(q) + [Flush, Flush], r, FRAME_BASE_SIZE) == Pipe([], [q[..k], last], false)
  {
    PutsFill(Idle, q, r, FRAME_BASE_SIZE);
    RunAppend(Idle, Puts(q), [Flush, Flush], r, FRAME_BASE_SIZE);
    assert [] + q == q;
    UniformCut(q, r, r.base, k);
    LeftOfTwo(q, k);
    UniformCut(last, r, r.base, 2);
    TwoFlushes(q, last, Run(Idle, Puts(q), r, FRAME_BASE_SIZE), r, k);
  }

  lemma FlattenTwo<T>(a: seq<T>, b: seq<T>)
    ensures Flatten([a, b]) == a + b
  {
    assert [a, b][1..] == [b] && [b][1..] == [];
    assert Flatten([b]) == b;
  }

  lemma LeftOfTwo<T>(q: seq<T>, k: nat)
    requires k + 2 == |q|
    ensures Reverse(q[k..]) == [q[k + 1], q[k]]
  {
    assert q[k..][1..] == [q[k + 1]] && [q[k + 1]][1..] == [];
  }

  lemma TwoFlushes(q: seq<Wire>, last: seq<Wire>, p: Pipe<Wire>, r: Rules<Wire>, k: nat)
    requires p.queue == q && p.batches == []
    requires !r.sort && Cut(q, r) == k && Reverse(q[k..]) == last && Cut(last, r) == |last|
    ensures Run(p, [Flush, Flush], r, FRAME_BASE_SIZE) == Pipe([], [q[..k], last], false)
  {
    var es: seq<Event<Wire>> := [Flush, Flush];
    var p' := Packing.Step(p, Flush, r, FRAME_BASE_SIZE);
    assert [] + [q[..k]] == [q[..k]];
    assert p' == Pipe(last, [q[..k]], false);
    assert last[..|last|] == last && last[|last|..] == [];
    var p'' := Packing.Step(p', Flush, r, FRAME_BASE_SIZE);
    assert [q[..k]] + [last] == [q[..k], last];
    assert p'' == Pipe([], [q[..k], last], false);
    assert es[1..] == [Flush] && es[1..][1..] == [];
  }

  // ----- Overflow

  /** The size kept with the queue decides whether a flush overflows: if it fits, no order of
      the queue does; and if no frame is a remote frame, only then. */
  lemma SizeDecidesOverflow(q: seq<CanFrame>, p: seq<CanFrame>, limit: nat)
    requires PACKET_BASE_SIZE <= limit && multiset(p) == multiset(q)
    ensures PACKET_BASE_SIZE + Sum(q, SlotSizes()) <= limit ==> Cut(p, FrameRules(false, limit)) == |p|
    ensures (forall i :: 0 <= i < |p| ==> !IsRtr(p[i].id)) ==>
              (PACKET_BASE_SIZE + Sum(q, SlotSizes()) <= limit <==> Cut(p, FrameRules(false, limit)) == |p|)
  {
    FrameRulesAreSane(false, limit);
    CachedSizeDecides(q, p, FrameRules(false, limit));
  }

  // ----- Draining

  /** No frame can be too long for a packet of 138 bytes, and the program's are ten times that. */
  lemma EveryFrameFits(q: seq<Wire>, sort: bool, limit: nat)
    requires limit >= 138
    ensures AllFitAlone(q, WireRules(sort, limit))
  {
  }

  /** Sorted drain: flushing a queue without insertions sends non-empty packets until it is
      empty; together they decode to a permutation of the queue in which identifiers never
      decrease. */
  lemma SortedDrainDecodes(q: seq<Wire>, limit: uint16, seqNo: uint8)
    requires PACKET_BASE_SIZE <= limit && AllValid(q) && AllFitAlone(q, WireRules(true, limit))
    ensures var r := WireRules(true, limit);
            var batches := Drain(q, r);
            && Flushed(q, r, |batches|) == []
            && (forall i :: 0 <= i < |batches| ==> batches[i] != [])
            && Small(batches)
            && DecodedAll(Packets(batches, seqNo)) == Flatten(batches)
            && multiset(Flatten(batches)) == multiset(q)
            && Ascending(DecodedAll(Packets(batches, seqNo)))
  {
    var r := WireRules(true, limit);
    DrainCompletes(q, r);
    DrainNeverIdles(q, r);
    RulesAreFramed(true, limit);
    DrainsFit(q, r);
    FittingIsSmall(Drain(q, r), r);
    DrainSendsEverythingOnce(q, r);
    SortedDrain(q, r);
    SortedAscends(Flatten(Drain(q, r)), true, limit);
    PartIsValid(Flatten(Drain(q, r)), q);
    DecodedPackets(Drain(q, r), seqNo);
  }

  /** Each packet of a sorted queue: its identifiers never decrease, and none is greater than one
      that is left. */
  lemma SortedFlush(q: seq<Wire>, limit: nat)
    ensures var r := WireRules(true, limit);
            && Ascending(Sent(q, r))
            && forall i, j :: 0 <= i < |Sent(q, r)| && 0 <= j < |Left(q, r)| ==>
                 MaskedId(Sent(q, r)[i].id) <= MaskedId(Left(q, r)[j].id)
  {
    var r := WireRules(true, limit);
    var o := Offered(q, r);
    var k := Cut(o, r);
    SortIsSorted(q, r.key);
    SortedAscends(o, true, limit);
    ReverseAt(o[k..]);
    assert forall j :: 0 <= j < |o| - k ==> Left(q, r)[j] == o[|o| - 1 - j];
  }

  // ----- End to end

  /** A receiving queue after arrivals: bounded, and stuck if it has neither room nor a frame. */
  function Appended(box: Box, ws: seq<Wire>): Box {
    if Stuck(box.q, box.c) then box else Box(BoundedAppend(box.q, box.c, ws), Used(box.c, |ws|))
  }

  lemma AppendedTwice(box: Box, a: seq<Wire>, b: seq<Wire>)
    ensures Appended(Appended(box, a), b) == Appended(box, a + b)
  {
    if !Stuck(box.q, box.c) {
      BoundedAppendTwice(box.q, box.c, a, b);
      UsedTwice(box.c, |a|, |b|);
    }
  }

  predicate Enough(c: Capacity, n: nat) { c.Unbounded? || n <= c.n }

  lemma AppendedWithRoom(box: Box, ws: seq<Wire>)
    requires Enough(box.c, |ws|)
    ensures Appended(box, ws) == Box(box.q + ws, Used(box.c, |ws|))
  {
    if Stuck(box.q, box.c) {
      assert box.q + ws == box.q;
    }
  }

  /** A packet within the limit is received whole. */
  lemma PacketIsRead(box: Box, batch: seq<Wire>, r: Rules<Wire>, seqNo: uint8)
    requires r == WireRules(r.sort, r.limit) && PACKET_BASE_SIZE + Sum(batch, r.wire) <= r.limit <= RECEIVE_BUFFER_SIZE
    requires AllValid(batch) && |batch| < 0x1_0000
    ensures var p := EncodePacket(batch, seqNo);
            && |p| > 0 && Reading(box, p).outcome != NotDefined
            && (!Stuck(box.q, box.c) ==> Reading(box, p) == Parsed(batch, |p|, Completed))
  {
    var p := EncodePacket(batch, seqNo);
    EncodedLength(batch, r.sort, r.limit);
    assert |p| == PACKET_BASE_SIZE + Sum(batch, r.wire);
    assert Taken(p) == |p| && p[..|p|] == p;
    var b := InBuffer(p);
    assert p <= b;
    if Stuck(box.q, box.c) {
      ParseCounts(ReaderOf(b, |p|), PACKET_BASE_SIZE, Count(b), 0);
    } else {
      RoundTrip(batch, seqNo, b, Grants(box.q, box.c));
    }
  }

  lemma UnpackPacket(box: Box, batch: seq<Wire>, r: Rules<Wire>, seqNo: uint8)
    requires r == WireRules(r.sort, r.limit) && PACKET_BASE_SIZE + Sum(batch, r.wire) <= r.limit <= RECEIVE_BUFFER_SIZE
    requires AllValid(batch) && |batch| < 0x1_0000
    ensures var p := EncodePacket(batch, seqNo);
            !Astray(box, p) && Unpack(box, p) == Appended(box, batch)
  {
    PacketIsRead(box, batch, r, seqNo);
    UnpackRead(box, batch, EncodePacket(batch, seqNo));
  }

  lemma UnpackRead(box: Box, batch: seq<Wire>, p: seq<uint8>)
    requires p != [] && Reading(box, p).outcome != NotDefined
    requires !Stuck(box.q, box.c) ==> Reading(box, p) == Parsed(batch, |p|, Completed)
    ensures !Astray(box, p) && Unpack(box, p) == Appended(box, batch)
  {
  }

  lemma UnpackedFirst(box: Box, batch: seq<Wire>, r: Rules<Wire>, seqNo: uint8, more: seq<seq<uint8>>)
    requires r == WireRules(r.sort, r.limit) && PACKET_BASE_SIZE + Sum(batch, r.wire) <= r.limit <= RECEIVE_BUFFER_SIZE
    requires AllValid(batch) && |batch| < 0x1_0000
    ensures Unpacked(box, [EncodePacket(batch, seqNo)] + more) == Unpacked(Appended(box, batch), more)
    ensures GoesAstray(box, [EncodePacket(batch, seqNo)] + more) == GoesAstray(Appended(box, batch), more)
  {
    UnpackPacket(box, batch, r, seqNo);
    assert ([EncodePacket(batch, seqNo)] + more)[1..] == more;
  }

  /** Packets that arrive whole and in order, whatever room there is: the receiving queue becomes
      the bounded append of all their frames, as if they had come in one packet, and the program
      never leaves its arrays. */
  lemma {:induction false} UnpackedAppends(box: Box, batches: seq<seq<Wire>>, r: Rules<Wire>, seqNo: uint8)
    requires r == WireRules(r.sort, r.limit) && r.limit <= RECEIVE_BUFFER_SIZE && Fitting(batches, r) && Small(batches)
    requires AllValid(Flatten(batches))
    ensures Unpacked(box, Packets(batches, seqNo)) == Appended(box, Flatten(batches))
    ensures !GoesAstray(box, Packets(batches, seqNo))
    decreases |batches|
  {
    if batches == [] {
      assert box.q + [] == box.q;
    } else {
      var first, rest := batches[0], Flatten(batches[1..]);
      ValidParts(first, rest);
      UnpackedFirst(box, first, r, seqNo, Packets(batches[1..], Numbered(seqNo, 1)));
      AppendedTwice(box, first, rest);
      UnpackedAppends(Appended(box, first), batches[1..], r, Numbered(seqNo, 1));
    }
  }

  /** End to end: on a prompt run over a transport that loses nothing, a receiving queue with room
      for everything, followed by what the sender still holds, is what was inserted. */
  lemma TunnelDeliversInOrder(es: seq<Event<Wire>>, limit: uint16, seqNo: uint8, box: Box)
    requires PACKET_BASE_SIZE <= limit <= RECEIVE_BUFFER_SIZE && AllValid(Inserted(es))
    requires Enough(box.c, |Inserted(es)|)
    requires Prompt(Idle, es, WireRules(false, limit), FRAME_BASE_SIZE)
    ensures var p := Run(Idle, es, WireRules(false, limit), FRAME_BASE_SIZE);
            && Small(p.batches)
            && Unpacked(box, Packets(p.batches, seqNo)).q + p.queue == box.q + Inserted(es)
  {
    PromptRun(es, limit);
    var r := WireRules(false, limit);
    var p := Run(Idle, es, r, FRAME_BASE_SIZE);
    assert |Flatten(p.batches)| + |p.queue| == |Inserted(es)|;
    UnpackedAppends(box, p.batches, r, seqNo);
    AppendedWithRoom(box, Flatten(p.batches));
    Associative(box.q, Flatten(p.batches), p.queue);
  }
}
