/**
 From the receiving queue to the CAN bus: passes of the writer over what is queued, with any
 answers of the socket. What the bus has seen, followed by what it can still see, is the queue,
 less the frames that a classic socket cannot take and with the mark cleared of those frames
 that were refused.
 */
module Bus {
  import opened Can
  import opened CanThreads
  import opened CanWriter
  import opened FrameBuffers
  import opened Receiver
  import opened Sequences

  /** What the bus sees of a frame that is handed to the socket as CAN FD or as classic. */
  function Face(item: Item, fd: bool): Wire { item.value.(len := Can.Marked(item.value.len, fd)).View() }

  function Faces(ws: seq<Write<Item>>): seq<Wire> {
    if ws == [] then [] else [Face(ws[0].key, ws[0].asFd)] + Faces(ws[1..])
  }

  /** The frames that the socket can take at all. */
  function TakeableOf(ws: seq<Wire>, canfd: bool): seq<Wire> {
    if ws == [] then [] else OneIf(ws[0], Takeable(IsFd(ws[0].len), canfd)) + TakeableOf(ws[1..], canfd)
  }

  /** A frame without the CAN FD mark, and so without flags. */
  function Unmarked(w: Wire): Wire { Wire(w.id, DataLen(w.len), [], w.data) }

  function Marks(ws: seq<Wire>): (marks: seq<bool>)
    ensures |marks| == |ws|
    ensures forall i :: 0 <= i < |ws| ==> marks[i] == IsFd(ws[i].len)
  {
    seq(|ws|, i requires 0 <= i < |ws| => IsFd(ws[i].len))
  }

  /** Which of the queued frames are refused at least once. */
  function Refusals(ws: seq<Wire>, canfd: bool, sockets: seq<Socket>): set<nat> {
    AfterPasses(Loaded(Marks(ws)), canfd, sockets).refused
  }

  /** What the bus gets to see of a queue. */
  function Relayed(ws: seq<Wire>, canfd: bool, refused: set<nat>): seq<Wire> {
    if ws == [] then []
    else
      var n := |ws| - 1;
      Relayed(ws[..n], canfd, refused)
      + OneIf(if n in refused then Unmarked(ws[n]) else ws[n], Takeable(IsFd(ws[n].len), canfd))
  }

  /** A classic bus sees no CAN FD frame. */
  lemma {:induction false} ClassicBus(ws: seq<Wire>, refused: set<nat>)
    ensures forall w :: w in Relayed(ws, false, refused) ==> w.len < 0x80
    decreases |ws|
  {
    if ws != [] {
      ClassicBus(ws[..|ws| - 1], refused);
    }
  }

  /** A CAN FD bus sees every frame, those that were refused as classic ones. */
  lemma {:induction false} FdBus(ws: seq<Wire>, refused: set<nat>)
    ensures |Relayed(ws, true, refused)| == |ws|
    ensures forall i :: 0 <= i < |ws| ==>
              Relayed(ws, true, refused)[i] == if i in refused then Unmarked(ws[i]) else ws[i]
    decreases |ws|
  {
    if ws != [] {
      FdBus(ws[..|ws| - 1], refused);
    }
  }

  // ----- Numbers, items and views

  /** The k-th item shows the k-th frame: with its mark, and without. */
  ghost predicate Stands(items: seq<Item>, ws: seq<Wire>) {
    && |items| == |ws|
    && forall k :: 0 <= k < |ws| ==>
         && Face(items[k], IsFd(ws[k].len)) == ws[k]
         && Face(items[k], false) == Unmarked(ws[k])
  }

  function Seen(ws: seq<Wire>, refused: set<nat>, k: nat): Wire
    requires k < |ws|
  {
    if k in refused then Unmarked(ws[k]) else ws[k]
  }

  predicate KeysBelow(ks: seq<nat>, n: nat) { forall i :: 0 <= i < |ks| ==> ks[i] < n }

  function SeenAll(ws: seq<Wire>, refused: set<nat>, ks: seq<nat>): seq<Wire>
    requires KeysBelow(ks, |ws|)
  {
    if ks == [] then [] else [Seen(ws, refused, ks[0])] + SeenAll(ws, refused, ks[1..])
  }

  lemma {:induction false} SeenConcat(ws: seq<Wire>, refused: set<nat>, a: seq<nat>, b: seq<nat>)
    requires KeysBelow(a, |ws|) && KeysBelow(b, |ws|)
    ensures SeenAll(ws, refused, a + b) == SeenAll(ws, refused, a) + SeenAll(ws, refused, b)
  {
    if a == [] {
      assert a + b == b;
    } else {
      assert (a + b)[1..] == a[1..] + b;
      SeenConcat(ws, refused, a[1..], b);
    }
  }

  lemma FaceIsSeen(items: seq<Item>, ws: seq<Wire>, refused: set<nat>, k: nat, fd: bool)
    requires Stands(items, ws) && k < |ws| && fd == (IsFd(ws[k].len) && k !in refused)
    ensures Face(items[k], fd) == Seen(ws, refused, k)
  {
  }

  lemma {:induction false} WritesAreSeen(items: seq<Item>, ws: seq<Wire>, refused: set<nat>, written: seq<Write<nat>>)
    requires Stands(items, ws) && WritesBelow(written, |ws|)
    requires forall i :: 0 <= i < |written| ==>
               written[i].asFd == (IsFd(ws[written[i].key].len) && written[i].key !in refused)
    ensures KeysBelow(WrittenKeys(written), |ws|)
    ensures Faces(NamedWrites(written, items)) == SeenAll(ws, refused, WrittenKeys(written))
  {
    if written != [] {
      FaceIsSeen(items, ws, refused, written[0].key, written[0].asFd);
      WritesAreSeen(items, ws, refused, written[1..]);
    }
  }

  /** What a queue of tokens shows. */
  function Shown(q: seq<Token<Item>>): seq<Wire> {
    if q == [] then [] else [Face(q[0].key, q[0].fd)] + Shown(q[1..])
  }

  lemma {:induction false} QueueIsSeen(items: seq<Item>, ws: seq<Wire>, refused: set<nat>, q: seq<Token<nat>>,
                                       canfd: bool)
    requires Stands(items, ws) && Below(q, |ws|)
    requires forall i :: 0 <= i < |q| ==> q[i].fd == (IsFd(ws[q[i].key].len) && q[i].key !in refused)
    ensures KeysBelow(Order(q, canfd), |ws|)
    ensures TakeableOf(Shown(Named(q, items)), canfd) == SeenAll(ws, refused, Order(q, canfd))
  {
    if q != [] {
      var k, rest := q[0].key, Shown(Named(q[1..], items));
      FaceIsSeen(items, ws, refused, k, q[0].fd);
      QueueIsSeen(items, ws, refused, q[1..], canfd);
      assert Shown(Named(q, items)) == [Seen(ws, refused, k)] + rest;
      assert ([Seen(ws, refused, k)] + rest)[1..] == rest;
      SeenConcat(ws, refused, OneIf(k, Takeable(q[0].fd, canfd)), Order(q[1..], canfd));
    }
  }

  lemma RelayedNext(ws: seq<Wire>, canfd: bool, refused: set<nat>, n: nat)
    requires n < |ws|
    ensures Relayed(ws[..n + 1], canfd, refused)
         == Relayed(ws[..n], canfd, refused) + OneIf(Seen(ws, refused, n), Takeable(IsFd(ws[n].len), canfd))
  {
    assert ws[..n + 1][..n] == ws[..n];
  }

  lemma ExpectedNext(marks: seq<bool>, canfd: bool, n: nat)
    requires n < |marks|
    ensures Expected(marks[..n + 1], canfd) == Expected(marks[..n], canfd) + OneIf<nat>(n, Takeable(marks[n], canfd))
  {
    assert marks[..n + 1][..n] == marks[..n];
  }

  lemma SeenOne(ws: seq<Wire>, refused: set<nat>, k: nat, take: bool)
    requires k < |ws|
    ensures KeysBelow(OneIf<nat>(k, take), |ws|)
    ensures SeenAll(ws, refused, OneIf<nat>(k, take)) == OneIf(Seen(ws, refused, k), take)
  {
    assert take ==> [k][1..] == [];
  }

  lemma {:induction false} ExpectedIsRelayed(ws: seq<Wire>, marks: seq<bool>, canfd: bool, refused: set<nat>, n: nat)
    requires n <= |ws| == |marks| && forall i :: 0 <= i < |ws| ==> marks[i] == IsFd(ws[i].len)
    ensures KeysBelow(Expected(marks[..n], canfd), |ws|)
    ensures SeenAll(ws, refused, Expected(marks[..n], canfd)) == Relayed(ws[..n], canfd, refused)
  {
    if n > 0 {
      var m := n - 1;
      ExpectedIsRelayed(ws, marks, canfd, refused, m);
      RelayedNext(ws, canfd, refused, m);
      ExpectedNext(marks, canfd, m);
      SeenOne(ws, refused, m, Takeable(marks[m], canfd));
      SeenConcat(ws, refused, Expected(marks[..m], canfd), OneIf<nat>(m, Takeable(marks[m], canfd)));
    }
  }

  lemma OrderIsSeen(ws: seq<Wire>, marks: seq<bool>, canfd: bool, refused: set<nat>, a: seq<nat>, b: seq<nat>)
    requires |ws| == |marks| && forall i :: 0 <= i < |ws| ==> marks[i] == IsFd(ws[i].len)
    requires KeysBelow(a, |ws|) && KeysBelow(b, |ws|) && a + b == Expected(marks, canfd)
    ensures SeenAll(ws, refused, a) + SeenAll(ws, refused, b) == Relayed(ws, canfd, refused)
  {
    SeenConcat(ws, refused, a, b);
    ExpectedIsRelayed(ws, marks, canfd, refused, |ws|);
    assert marks[..|ws|] == marks && ws[..|ws|] == ws;
  }

  lemma TrackedIsBelow(w: Writer, ws: seq<Wire>)
    requires Tracked(w) && w.marks == Marks(ws)
    ensures WritesBelow(w.written, |ws|) && Below(w.queue, |ws|)
    ensures forall i :: 0 <= i < |w.written| ==>
              w.written[i].asFd == (IsFd(ws[w.written[i].key].len) && w.written[i].key !in w.refused)
    ensures forall i :: 0 <= i < |w.queue| ==>
              w.queue[i].fd == (IsFd(ws[w.queue[i].key].len) && w.queue[i].key !in w.refused)
  {
  }

  /** The writer's order, in terms of what the bus sees. */
  lemma OrderIsRelayed(items: seq<Item>, ws: seq<Wire>, w: Writer, canfd: bool)
    requires Stands(items, ws) && w.marks == Marks(ws) && InOrder(w, canfd)
    ensures WritesBelow(w.written, |items|) && Below(w.queue, |items|)
    ensures Faces(NamedWrites(w.written, items)) + TakeableOf(Shown(Named(w.queue, items)), canfd)
         == Relayed(ws, canfd, w.refused)
  {
    TrackedIsBelow(w, ws);
    WritesAreSeen(items, ws, w.refused, w.written);
    QueueIsSeen(items, ws, w.refused, w.queue, canfd);
    OrderIsSeen(ws, w.marks, canfd, w.refused, WrittenKeys(w.written), Order(w.queue, canfd));
  }

  // ----- The writer at work

  ghost function Items(fs: seq<Frame>): (items: seq<Item>)
    reads fs
    ensures |items| == |fs|
  {
    if fs == [] then [] else [Item(fs[0], Bare(fs[0].Value()))] + Items(fs[1..])
  }

  lemma {:induction false} TokensShow(fs: seq<Frame>)
    ensures Shown(Tokens(fs)) == Views(Values(fs))
  {
    if fs != [] {
      TokensShow(fs[1..]);
      FaceOfFrame(fs[0]);
      assert Values(fs)[1..] == Values(fs[1..]);
    }
  }

  lemma {:induction false} ItemsAt(fs: seq<Frame>)
    ensures forall k :: 0 <= k < |fs| ==> Items(fs)[k] == Item(fs[k], Bare(fs[k].Value()))
  {
    if fs != [] {
      ItemsAt(fs[1..]);
    }
  }

  lemma ItemsStand(fs: seq<Frame>)
    ensures Stands(Items(fs), Views(Values(fs)))
  {
    ItemsAt(fs);
    ValuesAt(fs);
    ViewsAt(Values(fs));
    forall k | 0 <= k < |fs|
      ensures Face(Items(fs)[k], IsFd(Views(Values(fs))[k].len)) == Views(Values(fs))[k]
      ensures Face(Items(fs)[k], false) == Unmarked(Views(Values(fs))[k])
    {
      FaceOfFrame(fs[k]);
    }
  }

  lemma FaceOfFrame(f: Frame)
    ensures var item, v := Item(f, Bare(f.Value())), f.Value().View();
            Face(item, IsFd(f.len)) == v && v.len == f.len && Face(item, false) == Unmarked(v)
  {
    assert Can.Marked(DataLen(f.len), IsFd(f.len)) == f.len;
  }

  lemma {:induction false} TokensAreNamed(fs: seq<Frame>, names: seq<Item>, marks: seq<bool>, q: seq<Token<nat>>,
                                          k: nat)
    requires k + |fs| == |names| == |marks| && names[k..] == Items(fs) && |q| == |fs|
    requires forall i :: 0 <= i < |fs| ==> q[i] == Token(k + i, marks[k + i]) && marks[k + i] == IsFd(fs[i].len)
    ensures Below(q, |names|) && Tokens(fs) == Named(q, names)
    decreases |fs|
  {
    if fs != [] {
      assert names[k] == names[k..][0] && names[k + 1..] == names[k..][1..];
      TokensAreNamed(fs[1..], names, marks, q[1..], k + 1);
    }
  }

  /** The thread stands where the writer `w` does, whose numbers stand for `items`. */
  ghost predicate Follows(t: CanThread, w: Writer, items: seq<Item>, before: seq<Write<Item>>)
    reads t, t.frameBuffer, t.frameBuffer.buffer
  {
    && Below(w.queue, |items|) && WritesBelow(w.written, |items|)
    && Tokens(t.frameBuffer.buffer) == Named(w.queue, items)
    && t.writes == before + NamedWrites(w.written, items)
  }

  lemma {:induction false} LengthAt(fs: seq<Frame>, vs: seq<CanFrame>, k: nat)
    requires vs == Values(fs) && k < |fs|
    ensures Views(vs)[k].len == fs[k].len
  {
    if k > 0 {
      assert vs[1..] == Values(fs[1..]);
      LengthAt(fs[1..], vs[1..], k - 1);
    }
  }

  lemma MarkedTokens(fs: seq<Frame>, items: seq<Item>, marks: seq<bool>, q: seq<Token<nat>>)
    requires items == Items(fs) && |q| == |marks| == |fs|
    requires forall i :: 0 <= i < |fs| ==> q[i] == Token(i, marks[i]) && marks[i] == IsFd(fs[i].len)
    ensures Below(q, |fs|) && Tokens(fs) == Named(q, items)
  {
    assert items[0..] == items;
    TokensAreNamed(fs, items, marks, q, 0);
  }

  lemma QueueIsNamed(fs: seq<Frame>, items: seq<Item>, marks: seq<bool>, q: seq<Token<nat>>)
    requires items == Items(fs) && marks == Marks(Views(Values(fs))) && q == Numbers(marks)
    ensures Below(q, |fs|) && Tokens(fs) == Named(q, items)
  {
    forall k | 0 <= k < |fs|
      ensures marks[k] == IsFd(fs[k].len)
    {
      LengthAt(fs, Values(fs), k);
    }
    MarkedTokens(fs, items, marks, q);
  }

  lemma FollowsFromStart(t: CanThread)
    ensures var ws := Received(t.frameBuffer);
            Follows(t, Loaded(Marks(ws)), Items(t.frameBuffer.buffer), t.writes)
  {
    var fs, marks := t.frameBuffer.buffer, Marks(Received(t.frameBuffer));
    QueueIsNamed(fs, Items(fs), marks, Numbers(marks));
    assert t.writes + [] == t.writes;
  }

  /** One pass. */
  method RelayOne(t: CanThread, socket: Socket, ghost w: Writer, ghost items: seq<Item>, ghost before: seq<Write<Item>>)
    requires t.Valid() && Follows(t, w, items, before)
    modifies t.frameBuffer`buffer, t.frameBuffer`bufferSize, t.frameBuffer`loaned, t.frameBuffer`framePool,
             t.frameBuffer.buffer, t.timer, t`txCount, t`writes
    ensures t.Valid() && t.frameBuffer.loaned == old(t.frameBuffer.loaned)
    ensures t.frameBuffer.framePool + t.frameBuffer.buffer
         == old(t.frameBuffer.framePool) + old(t.frameBuffer.buffer)
    ensures forall k :: 0 <= k < |t.frameBuffer.buffer| ==> t.frameBuffer.buffer[k] in old(t.frameBuffer.buffer)
    ensures Follows(t, Step(w, t.canfd, Transmit(Answers(socket, |w.queue|))), items, before)
  {
    TokensLength(t.frameBuffer.buffer);
    var ok := Answers(socket, |t.frameBuffer.buffer|);
    ghost var o := Pass(w.queue, t.canfd, ok);
    PassOfNamed(w.queue, items, t.canfd, ok);
    NamedWritesConcat(w.written, o.written, items);
    Associative(before, NamedWrites(w.written, items), NamedWrites(o.written, items));
    t.TransmitBuffer(ok);
  }

  /** After `i` of the passes the writer is `w`, and the others are still to come. */
  ghost predicate Along(w0: Writer, canfd: bool, sockets: seq<Socket>, i: nat, w: Writer)
    requires i <= |sockets|
  {
    AfterPasses(w0, canfd, sockets) == AfterPasses(w, canfd, sockets[i..])
  }

  lemma AlongStarts(w: Writer, canfd: bool, sockets: seq<Socket>)
    ensures Along(w, canfd, sockets, 0, w)
  {
    assert sockets[0..] == sockets;
  }

  lemma AlongNext(w0: Writer, canfd: bool, sockets: seq<Socket>, i: nat, w: Writer)
    requires i < |sockets| && Along(w0, canfd, sockets, i, w)
    ensures Along(w0, canfd, sockets, i + 1, Step(w, canfd, Transmit(Answers(sockets[i], |w.queue|))))
  {
    assert sockets[i..][0] == sockets[i] && sockets[i..][1..] == sockets[i + 1..];
  }

  lemma AlongEnds(w0: Writer, canfd: bool, sockets: seq<Socket>, w: Writer)
    requires Along(w0, canfd, sockets, |sockets|, w)
    ensures AfterPasses(w0, canfd, sockets) == w
  {
  }

  method RelayNth(t: CanThread, sockets: seq<Socket>, i: nat, ghost w0: Writer, ghost w: Writer, ghost items: seq<Item>,
                  ghost before: seq<Write<Item>>)
    returns (ghost w': Writer)
    requires t.Valid() && i < |sockets| && Follows(t, w, items, before) && Along(w0, t.canfd, sockets, i, w)
    modifies t.frameBuffer`buffer, t.frameBuffer`bufferSize, t.frameBuffer`loaned, t.frameBuffer`framePool,
             t.frameBuffer.buffer, t.timer, t`txCount, t`writes
    ensures t.Valid() && t.frameBuffer.loaned == old(t.frameBuffer.loaned)
    ensures t.frameBuffer.framePool + t.frameBuffer.buffer
         == old(t.frameBuffer.framePool) + old(t.frameBuffer.buffer)
    ensures forall k :: 0 <= k < |t.frameBuffer.buffer| ==> t.frameBuffer.buffer[k] in old(t.frameBuffer.buffer)
    ensures Follows(t, w', items, before) && Along(w0, t.canfd, sockets, i + 1, w')
  {
    AlongNext(w0, t.canfd, sockets, i, w);
    RelayOne(t, sockets[i], w, items, before);
    w' := Step(w, t.canfd, Transmit(Answers(sockets[i], |w.queue|)));
  }

  method RelayAll(t: CanThread, sockets: seq<Socket>, ghost w0: Writer, ghost items: seq<Item>,
                  ghost before: seq<Write<Item>>)
    requires t.Valid() && Follows(t, w0, items, before)
    modifies t.frameBuffer`buffer, t.frameBuffer`bufferSize, t.frameBuffer`loaned, t.frameBuffer`framePool,
             t.frameBuffer.buffer, t.timer, t`txCount, t`writes
    ensures t.Valid() && t.frameBuffer.loaned == old(t.frameBuffer.loaned)
    ensures t.frameBuffer.framePool + t.frameBuffer.buffer
         == old(t.frameBuffer.framePool) + old(t.frameBuffer.buffer)
    ensures Follows(t, AfterPasses(w0, t.canfd, sockets), items, before)
  {
    ghost var w := w0;
    AlongStarts(w0, t.canfd, sockets);
    var i := 0;
    while i < |sockets|
      invariant 0 <= i <= |sockets|
      invariant t.Valid() && t.frameBuffer.loaned == old(t.frameBuffer.loaned)
      invariant t.frameBuffer.framePool + t.frameBuffer.buffer
             == old(t.frameBuffer.framePool) + old(t.frameBuffer.buffer)
      invariant forall k :: 0 <= k < |t.frameBuffer.buffer| ==> t.frameBuffer.buffer[k] in old(t.frameBuffer.buffer)
      invariant Follows(t, w, items, before)
      invariant Along(w0, t.canfd, sockets, i, w)
    {
      w := RelayNth(t, sockets, i, w0, w, items, before);
      i := i + 1;
    }
    AlongEnds(w0, t.canfd, sockets, w);
  }

  /** Any number of passes over what is queued: what the bus saw during them, followed by the
      queued frames it can still see, is the queue as it was, frames that the socket cannot take
      aside, and without the CAN FD mark where a write was refused. */
  method Relay(t: CanThread, sockets: seq<Socket>)
    requires t.Valid()
    modifies t.frameBuffer`buffer, t.frameBuffer`bufferSize, t.frameBuffer`loaned, t.frameBuffer`framePool,
             t.frameBuffer.buffer, t.timer, t`txCount, t`writes
    ensures t.Valid() && t.frameBuffer.loaned == old(t.frameBuffer.loaned)
    ensures t.frameBuffer.framePool + t.frameBuffer.buffer
         == old(t.frameBuffer.framePool) + old(t.frameBuffer.buffer)
    ensures |old(t.writes)| <= |t.writes| && t.writes[..|old(t.writes)|] == old(t.writes)
    ensures var ws := old(Received(t.frameBuffer));
            Faces(t.writes[|old(t.writes)|..]) + TakeableOf(Received(t.frameBuffer), t.canfd)
            == Relayed(ws, t.canfd, Refusals(ws, t.canfd, sockets))
  {
    ghost var ws, items, before := Received(t.frameBuffer), Items(t.frameBuffer.buffer), t.writes;
    ghost var w := Loaded(Marks(ws));
    FollowsFromStart(t);
    ItemsStand(t.frameBuffer.buffer);
    LoadedIsInOrder(Marks(ws), t.canfd);
    PassesKeepInOrder(w, t.canfd, sockets);
    RelayAll(t, sockets, w, items, before);
    w := AfterPasses(w, t.canfd, sockets);
    OrderIsRelayed(items, ws, w, t.canfd);
    TokensShow(t.frameBuffer.buffer);
    Parts(before, NamedWrites(w.written, items), t.writes);
  }
}
