/**
 The CAN writer's order: one pass writes the queue front to back until the socket refuses a
 frame, which goes back to the head. Frames are tokens here, a key and the CAN FD mark.
 */
module CanWriter {
  import opened Sequences

  datatype Token<+T> = Token(key: T, fd: bool)

  /** A successful write, as a CAN FD or as a classic frame. */
  datatype Write<+T> = Write(key: T, asFd: bool)

  datatype Outcome<+T> = Outcome(written: seq<Write<T>>, dropped: seq<T>, refused: seq<T>, left: seq<Token<T>>)

  /** One pass over `q`; `ok[k]` is whether the socket takes the k-th frame offered to it. On a
      classic socket CAN FD frames are dropped. The mark is cleared before a frame is written,
      so a refused frame comes back without it. */
  function Pass<T>(q: seq<Token<T>>, canfd: bool, ok: seq<bool>): Outcome<T>
    requires |q| <= |ok|
    decreases |q|
  {
    if q == [] then Outcome([], [], [], [])
    else if !canfd && q[0].fd then
      var rest := Pass(q[1..], canfd, ok);
      rest.(dropped := [q[0].key] + rest.dropped)
    else if ok[0] then
      var rest := Pass(q[1..], canfd, ok[1..]);
      rest.(written := [Write(q[0].key, q[0].fd)] + rest.written)
    else Outcome([], [], [q[0].key], [Token(q[0].key, false)] + q[1..])
  }

  // ----- Order

  function WrittenKeys<T>(ws: seq<Write<T>>): seq<T> {
    if ws == [] then [] else [ws[0].key] + WrittenKeys(ws[1..])
  }

  /** A classic socket cannot take CAN FD frames. */
  predicate Takeable(fd: bool, canfd: bool) { canfd || !fd }

  function OneIf<T>(key: T, take: bool): seq<T> { if take then [key] else [] }

  /** The keys of the tokens a socket can take at all, in order. */
  function Order<T>(q: seq<Token<T>>, canfd: bool): seq<T> {
    if q == [] then []
    else OneIf(q[0].key, Takeable(q[0].fd, canfd)) + Order(q[1..], canfd)
  }

  lemma WrittenCons<T>(w: Write<T>, ws: seq<Write<T>>, tail: seq<T>)
    ensures WrittenKeys([w] + ws) + tail == [w.key] + (WrittenKeys(ws) + tail)
  {
    assert ([w] + ws)[1..] == ws;
  }

  lemma {:induction false} WrittenConcat<T>(a: seq<Write<T>>, b: seq<Write<T>>)
    ensures WrittenKeys(a + b) == WrittenKeys(a) + WrittenKeys(b)
  {
    if a == [] {
      assert a + b == b;
    } else {
      assert (a + b)[1..] == a[1..] + b;
      WrittenConcat(a[1..], b);
    }
  }

  lemma {:induction false} OrderAppend<T>(q: seq<Token<T>>, t: Token<T>, canfd: bool)
    ensures Order(q + [t], canfd) == Order(q, canfd) + OneIf(t.key, Takeable(t.fd, canfd))
  {
    if q == [] {
      assert q + [t] == [t] && [t][1..] == [];
    } else {
      assert (q + [t])[1..] == q[1..] + [t];
      OrderAppend(q[1..], t, canfd);
    }
  }

  /** A pass neither loses nor reorders what the socket can take. */
  lemma {:induction false} PassKeepsOrder<T>(q: seq<Token<T>>, canfd: bool, ok: seq<bool>)
    requires |q| <= |ok|
    ensures var o := Pass(q, canfd, ok);
            WrittenKeys(o.written) + Order(o.left, canfd) == Order(q, canfd)
    decreases |q|
  {
    if q == [] {
    } else if !canfd && q[0].fd {
      PassKeepsOrder(q[1..], canfd, ok);
    } else if ok[0] {
      PassKeepsOrder(q[1..], canfd, ok[1..]);
      var rest := Pass(q[1..], canfd, ok[1..]);
      WrittenCons(Write(q[0].key, q[0].fd), rest.written, Order(rest.left, canfd));
    } else {
      assert Pass(q, canfd, ok).left[1..] == q[1..];
    }
  }

  /** Written as classic frames, all of them. */
  ghost predicate AllClassic<T>(ws: seq<Write<T>>) { forall w :: w in ws ==> !w.asFd }

  /** A classic socket is never handed a CAN FD frame, a CAN FD socket is spared none. */
  lemma {:induction false} PassSuitsSocket<T>(q: seq<Token<T>>, canfd: bool, ok: seq<bool>)
    requires |q| <= |ok|
    ensures !canfd ==> AllClassic(Pass(q, canfd, ok).written)
    ensures canfd ==> Pass(q, canfd, ok).dropped == []
    decreases |q|
  {
    if q == [] {
    } else if !canfd && q[0].fd {
      PassSuitsSocket(q[1..], canfd, ok);
    } else if ok[0] {
      PassSuitsSocket(q[1..], canfd, ok[1..]);
    }
  }

  // ----- Runs of insertions and passes

  datatype Event = Arrive(fd: bool) | Transmit(ok: seq<bool>)

  /** Frames are numbered as they arrive; `marks[k]` is whether frame k arrived as CAN FD. */
  datatype Writer = Writer(marks: seq<bool>, queue: seq<Token<nat>>, written: seq<Write<nat>>, refused: set<nat>)

  const Start := Writer([], [], [], {})

  predicate Possible(w: Writer, e: Event) {
    e.Transmit? ==> |w.queue| <= |e.ok|
  }

  function Step(w: Writer, canfd: bool, e: Event): Writer
    requires Possible(w, e)
  {
    match e
    case Arrive(fd) => w.(marks := w.marks + [fd], queue := w.queue + [Token(|w.marks|, fd)])
    case Transmit(ok) =>
      After(w, Pass(w.queue, canfd, ok))
  }

  function After(w: Writer, o: Outcome<nat>): Writer {
    w.(queue := o.left, written := w.written + o.written, refused := w.refused + set k | k in o.refused)
  }

  /** The frames the socket can take, in the order they arrived. */
  function Expected(marks: seq<bool>, canfd: bool): seq<nat> {
    if marks == [] then []
    else
      var n := |marks| - 1;
      Expected(marks[..n], canfd) + OneIf<nat>(n, Takeable(marks[n], canfd))
  }

  /** On a CAN FD socket these are all frames, on a classic one those that are not CAN FD. */
  lemma {:induction false} ExpectedIff(marks: seq<bool>, canfd: bool, k: nat)
    ensures k in Expected(marks, canfd) <==> k < |marks| && (canfd || !marks[k])
    decreases |marks|
  {
    if marks != [] {
      ExpectedIff(marks[..|marks| - 1], canfd, k);
    }
  }

  /** Frame k carries the mark `fd`: the one it arrived with, unless a write of it was
      refused. */
  ghost predicate Marked(w: Writer, k: nat, fd: bool) {
    k < |w.marks| && fd == (w.marks[k] && k !in w.refused)
  }

  /** What every run keeps: the frames written, in the order written, followed by the takeable
      frames still queued are exactly the takeable frames that arrived, in that order; and
      frames reach the socket with their CAN FD mark unless a write of them was refused. */
  ghost predicate InOrder(w: Writer, canfd: bool) {
    WrittenKeys(w.written) + Order(w.queue, canfd) == Expected(w.marks, canfd) && Tracked(w)
  }

  ghost predicate Tracked(w: Writer) {
    && (forall i :: 0 <= i < |w.written| ==> Marked(w, w.written[i].key, w.written[i].asFd))
    && (forall i :: 0 <= i < |w.queue| ==> Marked(w, w.queue[i].key, w.queue[i].fd))
    && (forall i, j :: 0 <= i < j < |w.queue| ==> w.queue[i].key < w.queue[j].key)
    && (forall i, j :: 0 <= i < |w.written| && 0 <= j < |w.queue| ==> w.written[i].key < w.queue[j].key)
    && (forall k :: k in w.refused ==> k < |w.marks|)
  }

  /** The token a write came from. */
  function Source<T>(w: Write<T>): Token<T> { Token(w.key, w.asFd) }

  /** Every write came from one of the first `k` tokens. */
  ghost predicate From<T>(written: seq<Write<T>>, q: seq<Token<T>>, k: nat)
    requires k <= |q|
  {
    forall i :: 0 <= i < |written| ==> Source(written[i]) in q[..k]
  }

  lemma SourceOf<T>(written: seq<Write<T>>, q: seq<Token<T>>, k: nat, i: nat) returns (j: nat)
    requires k <= |q| && From(written, q, k) && i < |written|
    ensures j < k && q[j] == Source(written[i])
  {
    assert Source(written[i]) in q[..k];
    j :| j < k && q[..k][j] == Source(written[i]);
  }

  lemma FromTail<T>(written: seq<Write<T>>, q: seq<Token<T>>, k: nat)
    requires q != [] && k < |q| && From(written, q[1..], k)
    ensures From(written, q, k + 1)
  {
    forall i | 0 <= i < |written| ensures Source(written[i]) in q[..k + 1] {
      var j := SourceOf(written, q[1..], k, i);
      assert q[..k + 1][j + 1] == Source(written[i]);
    }
  }

  lemma FromCons<T>(w: Write<T>, written: seq<Write<T>>, q: seq<Token<T>>, k: nat)
    requires 0 < k <= |q| && q[0] == Source(w) && From(written, q, k)
    ensures From([w] + written, q, k)
  {
    assert q[..k][0] == Source(w);
  }

  /** The shape of a pass: a prefix is consumed, the next token comes back unmarked. */
  ghost predicate Shaped<T>(q: seq<Token<T>>, o: Outcome<T>) {
    var k := |q| - |o.left|;
    && 0 <= k
    && From(o.written, q, k)
    && (if o.left == [] then o.refused == []
        else o.refused == [q[k].key] && o.left == [Token(q[k].key, false)] + q[k + 1..])
  }

  lemma {:induction false} PassIsShaped<T>(q: seq<Token<T>>, canfd: bool, ok: seq<bool>)
    requires |q| <= |ok|
    ensures Shaped(q, Pass(q, canfd, ok))
    decreases |q|
  {
    if q != [] && (ok[0] || (!canfd && q[0].fd)) {
      var drop := !canfd && q[0].fd;
      var ok' := if drop then ok else ok[1..];
      PassIsShaped(q[1..], canfd, ok');
      var rest := Pass(q[1..], canfd, ok');
      var k := |q| - |rest.left|;
      FromTail(rest.written, q, k - 1);
      if !drop {
        FromCons(Write(q[0].key, q[0].fd), rest.written, q, k);
      }
      assert rest.left != [] ==> q[1..][k..] == q[k + 1..];
    }
  }

  lemma AfterKeepsTracked(w: Writer, o: Outcome<nat>)
    requires Tracked(w) && Shaped(w.queue, o)
    ensures Tracked(After(w, o))
  {
    var q, w' := w.queue, After(w, o);
    var n, k := |w.written|, |q| - |o.left|;
    assert forall j :: 0 <= j < |o.left| ==> o.left[j].key == q[k + j].key;
    forall i | 0 <= i < |w'.written|
      ensures Marked(w', w'.written[i].key, w'.written[i].asFd)
      ensures forall j :: 0 <= j < |o.left| ==> w'.written[i].key < o.left[j].key
    {
      if i >= n {
        WrittenIsTracked(w, o, i - n);
      }
    }
  }

  lemma WrittenIsTracked(w: Writer, o: Outcome<nat>, i: nat)
    requires Tracked(w) && Shaped(w.queue, o) && i < |o.written|
    ensures var q, k := w.queue, |w.queue| - |o.left|;
            && Marked(After(w, o), o.written[i].key, o.written[i].asFd)
            && forall j :: k <= j < |q| ==> o.written[i].key < q[j].key
  {
    var q, k := w.queue, |w.queue| - |o.left|;
    var j := SourceOf<nat>(o.written, q, k, i);
  }

  lemma TransmitKeepsInOrder(w: Writer, canfd: bool, ok: seq<bool>)
    requires InOrder(w, canfd) && |w.queue| <= |ok|
    ensures InOrder(Step(w, canfd, Transmit(ok)), canfd)
  {
    var o := Pass(w.queue, canfd, ok);
    PassIsShaped(w.queue, canfd, ok);
    AfterKeepsTracked(w, o);
    PassKeepsOrder(w.queue, canfd, ok);
    WrittenConcat(w.written, o.written);
    Associative(WrittenKeys(w.written), WrittenKeys(o.written), Order(o.left, canfd));
  }

  lemma ExpectedAppend(marks: seq<bool>, fd: bool, canfd: bool)
    ensures Expected(marks + [fd], canfd) == Expected(marks, canfd) + OneIf<nat>(|marks|, Takeable(fd, canfd))
  {
    assert (marks + [fd])[..|marks|] == marks;
  }

  lemma ArriveKeepsTracked(w: Writer, canfd: bool, fd: bool)
    requires Tracked(w)
    ensures Tracked(Step(w, canfd, Arrive(fd)))
  {
  }

  lemma ArriveKeepsInOrder(w: Writer, canfd: bool, fd: bool)
    requires InOrder(w, canfd)
    ensures InOrder(Step(w, canfd, Arrive(fd)), canfd)
  {
    var n: nat := |w.marks|;
    var t: Token<nat> := Token(n, fd);
    ArriveKeepsTracked(w, canfd, fd);
    OrderAppend(w.queue, t, canfd);
    ExpectedAppend(w.marks, fd, canfd);
    Associative(WrittenKeys(w.written), Order(w.queue, canfd), OneIf<nat>(n, Takeable(fd, canfd)));
  }

  predicate Runs(w: Writer, canfd: bool, es: seq<Event>)
    decreases |es|
  {
    es == [] || (Possible(w, es[0]) && Runs(Step(w, canfd, es[0]), canfd, es[1..]))
  }

  function Run(w: Writer, canfd: bool, es: seq<Event>): Writer
    requires Runs(w, canfd, es)
    decreases |es|
  {
    if es == [] then w else Run(Step(w, canfd, es[0]), canfd, es[1..])
  }

  lemma {:induction false} RunKeepsInOrder(w: Writer, canfd: bool, es: seq<Event>)
    requires InOrder(w, canfd) && Runs(w, canfd, es)
    ensures InOrder(Run(w, canfd, es), canfd)
    decreases |es|
  {
    if es != [] {
      if es[0].Arrive? {
        ArriveKeepsInOrder(w, canfd, es[0].fd);
      } else {
        TransmitKeepsInOrder(w, canfd, es[0].ok);
      }
      RunKeepsInOrder(Step(w, canfd, es[0]), canfd, es[1..]);
    }
  }

  ghost predicate Increasing(x: seq<nat>, bound: nat) {
    && (forall i :: 0 <= i < |x| ==> x[i] < bound)
    && (forall i, j :: 0 <= i < j < |x| ==> x[i] < x[j])
  }

  lemma PrefixIncreases(x: seq<nat>, y: seq<nat>, bound: nat)
    requires Increasing(x + y, bound)
    ensures Increasing(x, bound)
  {
    assert forall i :: 0 <= i < |x| ==> x[i] == (x + y)[i];
  }

  lemma {:induction false} ExpectedIncreases(marks: seq<bool>, canfd: bool)
    ensures Increasing(Expected(marks, canfd), |marks|)
  {
    if marks != [] {
      ExpectedIncreases(marks[..|marks| - 1], canfd);
    }
  }

  lemma {:induction false} KeysAt<T>(ws: seq<Write<T>>)
    ensures |WrittenKeys(ws)| == |ws|
    ensures forall i :: 0 <= i < |ws| ==> WrittenKeys(ws)[i] == ws[i].key
  {
    if ws != [] {
      KeysAt(ws[1..]);
    }
  }

  lemma SuitsSocket(w: Writer, canfd: bool)
    requires InOrder(w, canfd)
    ensures !canfd ==> AllClassic(w.written)
  {
    var keys := WrittenKeys(w.written);
    KeysAt(w.written);
    forall i | 0 <= i < |w.written| && !canfd ensures !w.written[i].asFd {
      assert (keys + Order(w.queue, canfd))[i] == w.written[i].key;
      ExpectedIff(w.marks, canfd, w.written[i].key);
    }
  }

  /** CAN writer order, over every run of insertions and passes with arbitrary write results:
      `InOrder` holds, no frame is written twice, and none as CAN FD to a classic socket. */
  lemma RunsWriteInOrder(canfd: bool, es: seq<Event>)
    requires Runs(Start, canfd, es)
    ensures InOrder(Run(Start, canfd, es), canfd)
    ensures Increasing(WrittenKeys(Run(Start, canfd, es).written), |Run(Start, canfd, es).marks|)
    ensures !canfd ==> AllClassic(Run(Start, canfd, es).written)
  {
    RunKeepsInOrder(Start, canfd, es);
    var w := Run(Start, canfd, es);
    SuitsSocket(w, canfd);
    ExpectedIncreases(w.marks, canfd);
    PrefixIncreases(WrittenKeys(w.written), Order(w.queue, canfd), |w.marks|);
  }

  /** How the mark is lost: on a CAN FD socket a CAN FD frame is refused once and then written, as
      a classic frame. */
  lemma RefusalLosesMark()
    ensures var es := [Arrive(true), Transmit([false]), Transmit([true])];
            Runs(Start, true, es) && Run(Start, true, es) == Writer([true], [], [Write(0, false)], {0})
  {
    var es := [Arrive(true), Transmit([false]), Transmit([true])];
    var w1 := Step(Start, true, es[0]);
    assert w1 == Writer([true], [Token(0, true)], [], {});
    var w2 := Step(w1, true, es[1]);
    assert Pass(w1.queue, true, [false]) == Outcome([], [], [0], [Token(0, false)]);
    assert (set k | k in [0]) == {0};
    assert w2 == Writer([true], [Token(0, false)], [], {0});
    assert w2.queue[1..] == [];
    var w3 := Step(w2, true, es[2]);
    assert w3 == Writer([true], [], [Write(0, false)], {0});
    assert es[1..] == [es[1], es[2]] && es[1..][1..] == [es[2]] && es[1..][1..][1..] == [];
  }

  // ----- Passes over frames that have arrived

  /** The writer with frames 0, 1, ... queued as they arrived. */
  function Loaded(marks: seq<bool>): Writer { Writer(marks, Numbers(marks), [], {}) }

  function Numbers(marks: seq<bool>): (q: seq<Token<nat>>)
    ensures |q| == |marks| && forall i :: 0 <= i < |q| ==> q[i] == Token(i, marks[i])
  {
    if marks == [] then []
    else
      var n := |marks| - 1;
      Numbers(marks[..n]) + [Token(n, marks[n])]
  }

  lemma {:induction false} LoadedIsInOrder(marks: seq<bool>, canfd: bool)
    ensures InOrder(Loaded(marks), canfd)
  {
    if marks != [] {
      var n := |marks| - 1;
      LoadedIsInOrder(marks[..n], canfd);
      ArriveKeepsInOrder(Loaded(marks[..n]), canfd, marks[n]);
      assert marks[..n] + [marks[n]] == marks;
    }
  }

  /** Whether the socket takes the n-th frame offered to it in a pass. */
  type Socket = nat -> bool

  function Answers(socket: Socket, n: nat): seq<bool> { seq(n, i requires 0 <= i < n => socket(i)) }

  /** One pass after the other. */
  function AfterPasses(w: Writer, canfd: bool, sockets: seq<Socket>): Writer
    decreases |sockets|
  {
    if sockets == [] then w
    else AfterPasses(Step(w, canfd, Transmit(Answers(sockets[0], |w.queue|))), canfd, sockets[1..])
  }

  lemma {:induction false} PassesKeepInOrder(w: Writer, canfd: bool, sockets: seq<Socket>)
    requires InOrder(w, canfd)
    ensures InOrder(AfterPasses(w, canfd, sockets), canfd) && AfterPasses(w, canfd, sockets).marks == w.marks
    decreases |sockets|
  {
    if sockets != [] {
      TransmitKeepsInOrder(w, canfd, Answers(sockets[0], |w.queue|));
      PassesKeepInOrder(Step(w, canfd, Transmit(Answers(sockets[0], |w.queue|))), canfd, sockets[1..]);
    }
  }

  // ----- Numbers stand for anything

  predicate Below(q: seq<Token<nat>>, n: nat) { forall i :: 0 <= i < |q| ==> q[i].key < n }

  predicate WritesBelow(ws: seq<Write<nat>>, n: nat) { forall i :: 0 <= i < |ws| ==> ws[i].key < n }

  function Named<T>(q: seq<Token<nat>>, names: seq<T>): (r: seq<Token<T>>)
    requires Below(q, |names|)
    ensures |r| == |q|
  {
    if q == [] then [] else [Token(names[q[0].key], q[0].fd)] + Named(q[1..], names)
  }

  function NamedWrites<T>(ws: seq<Write<nat>>, names: seq<T>): (r: seq<Write<T>>)
    requires WritesBelow(ws, |names|)
    ensures |r| == |ws|
  {
    if ws == [] then [] else [Write(names[ws[0].key], ws[0].asFd)] + NamedWrites(ws[1..], names)
  }

  lemma {:induction false} NamedWritesConcat<T>(a: seq<Write<nat>>, b: seq<Write<nat>>, names: seq<T>)
    requires WritesBelow(a, |names|) && WritesBelow(b, |names|)
    ensures NamedWrites(a + b, names) == NamedWrites(a, names) + NamedWrites(b, names)
  {
    if a == [] {
      assert a + b == b;
    } else {
      assert (a + b)[1..] == a[1..] + b;
      NamedWritesConcat(a[1..], b, names);
    }
  }

  /** A pass does not look at what the tokens stand for. */
  lemma {:induction false} PassOfNamed<T>(q: seq<Token<nat>>, names: seq<T>, canfd: bool, ok: seq<bool>)
    requires Below(q, |names|) && |q| <= |ok|
    ensures var o, o' := Pass(q, canfd, ok), Pass(Named(q, names), canfd, ok);
            && Below(o.left, |names|) && WritesBelow(o.written, |names|)
            && o'.left == Named(o.left, names) && o'.written == NamedWrites(o.written, names)
    decreases |q|
  {
    if q != [] {
      var drop := !canfd && q[0].fd;
      if drop || ok[0] {
        var ok' := if drop then ok else ok[1..];
        PassOfNamed(q[1..], names, canfd, ok');
        assert Named(q, names)[1..] == Named(q[1..], names);
      } else {
        var left := [Token<nat>.Token(q[0].key, false)] + q[1..];
        assert left[1..] == q[1..];
      }
    }
  }
}
