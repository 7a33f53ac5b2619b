/**
 One flush of the frame queue, and many: the packer takes frames from the front until one
 finds no room, and what is left goes back to the front of the queue one frame at a time,
 that is, reversed. Sizes and order are parameters here; `Pipeline` instantiates them.
 */
module Packing {
  import opened Sequences

  /** What the packer needs to know: the bytes it reserves for an element when it looks for
      room, the bytes it then writes, the sort key, whether to sort, and where room ends. */
  datatype Rules<!T> = Rules(slot: T -> nat, wire: T -> nat, key: T -> nat, sort: bool, base: nat, limit: nat)

  /** Elements write something, and no more than is reserved for them. */
  ghost predicate Sane<T(!new)>(r: Rules<T>) {
    forall x :: 0 < r.wire(x) <= r.slot(x)
  }

  predicate FitsAlone<T>(x: T, r: Rules<T>) {
    r.base + r.slot(x) <= r.limit
  }

  predicate AllFitAlone<T>(q: seq<T>, r: Rules<T>) {
    forall i :: 0 <= i < |q| ==> FitsAlone(q[i], r)
  }

  // ----- The cut

  /** How many elements of `q` the packer writes when its cursor stands at `cursor`. */
  function CutFrom<T>(q: seq<T>, r: Rules<T>, cursor: nat): (k: nat)
    ensures k <= |q|
  {
    if q == [] || cursor + r.slot(q[0]) > r.limit then 0
    else 1 + CutFrom(q[1..], r, cursor + r.wire(q[0]))
  }

  function Cut<T>(q: seq<T>, r: Rules<T>): (k: nat)
    ensures k <= |q|
  {
    CutFrom(q, r, r.base)
  }

  /** The element at `i` has room behind the elements before it. */
  predicate HasRoom<T>(q: seq<T>, r: Rules<T>, cursor: nat, i: nat)
    requires i < |q|
  {
    cursor + Sum(q[..i], r.wire) + r.slot(q[i]) <= r.limit
  }

  /** The cut is where room first runs out: every element before it has room, the element at
      it has none. */
  lemma {:induction false} CutIsFirstWithoutRoom<T>(q: seq<T>, r: Rules<T>, cursor: nat)
    ensures var k := CutFrom(q, r, cursor);
            && (forall i :: 0 <= i < k ==> HasRoom(q, r, cursor, i))
            && (k < |q| ==> !HasRoom(q, r, cursor, k))
  {
    if q != [] {
      var rest, next := q[1..], cursor + r.wire(q[0]);
      CutIsFirstWithoutRoom(rest, r, next);
      forall i | 0 <= i < |q|
        ensures HasRoom(q, r, cursor, i)
           <==> if i == 0 then cursor + r.slot(q[0]) <= r.limit else HasRoom(rest, r, next, i - 1)
      {
        if i > 0 {
          assert q[..i][1..] == rest[..i - 1];
        }
      }
    }
  }

  /** What is written ends inside the limit. */
  lemma {:induction false} CutFits<T(!new)>(q: seq<T>, r: Rules<T>, cursor: nat)
    requires Sane(r) && cursor <= r.limit
    ensures cursor + Sum(q[..CutFrom(q, r, cursor)], r.wire) <= r.limit
  {
    var k := CutFrom(q, r, cursor);
    if k > 0 {
      CutFits(q[1..], r, cursor + r.wire(q[0]));
      assert q[..k][1..] == q[1..][..k - 1];
    }
  }

  /** If the slots of a prefix fit, the prefix is not cut. */
  lemma {:induction false} SlotsFit<T(!new)>(q: seq<T>, r: Rules<T>, cursor: nat, n: nat)
    requires Sane(r) && n <= |q| && cursor + Sum(q[..n], r.slot) <= r.limit
    ensures CutFrom(q, r, cursor) >= n
  {
    if n > 0 {
      assert q[..n][1..] == q[1..][..n - 1];
      SlotsFit(q[1..], r, cursor + r.wire(q[0]), n - 1);
    }
  }

  /** Where every element writes all it reserves, an uncut queue's slots fit. */
  lemma {:induction false} UncutFits<T>(q: seq<T>, r: Rules<T>, cursor: nat)
    requires forall i :: 0 <= i < |q| ==> r.wire(q[i]) == r.slot(q[i])
    requires cursor <= r.limit && CutFrom(q, r, cursor) == |q|
    ensures cursor + Sum(q, r.slot) <= r.limit
  {
    if q != [] {
      UncutFits(q[1..], r, cursor + r.wire(q[0]));
    }
  }

  /** The size kept with the queue decides the packer's overflow: if it fits, no order of the
      queue overflows; and if every element writes all it reserves, only then. */
  lemma CachedSizeDecides<T(!new)>(q: seq<T>, p: seq<T>, r: Rules<T>)
    requires Sane(r) && r.base <= r.limit && multiset(p) == multiset(q)
    ensures r.base + Sum(q, r.slot) <= r.limit ==> Cut(p, r) == |p|
    ensures (forall i :: 0 <= i < |p| ==> r.wire(p[i]) == r.slot(p[i]))
            ==> (r.base + Sum(q, r.slot) <= r.limit <==> Cut(p, r) == |p|)
  {
    SumPermutation(p, q, r.slot);
    assert p[..|p|] == p;
    if r.base + Sum(q, r.slot) <= r.limit {
      SlotsFit(p, r, r.base, |p|);
    } else if Cut(p, r) == |p| && forall i :: 0 <= i < |p| ==> r.wire(p[i]) == r.slot(p[i]) {
      UncutFits(p, r, r.base);
    }
  }

  // ----- One flush

  /** The order in which a flush offers the queue to the packer. */
  function Offered<T>(q: seq<T>, r: Rules<T>): (o: seq<T>)
    ensures |o| == |q|
  {
    if r.sort then Sort(q, r.key) else q
  }

  function Sent<T>(q: seq<T>, r: Rules<T>): seq<T> {
    var o := Offered(q, r);
    o[..Cut(o, r)]
  }

  /** The queue after a flush. */
  function Left<T>(q: seq<T>, r: Rules<T>): seq<T> {
    var o := Offered(q, r);
    Reverse(o[Cut(o, r)..])
  }

  lemma OfferedIsPermutation<T>(q: seq<T>, r: Rules<T>)
    ensures multiset(Offered(q, r)) == multiset(q)
  {
    SortIsPermutation(q, r.key);
  }

  /** A flush loses nothing and duplicates nothing. */
  lemma FlushConserves<T>(q: seq<T>, r: Rules<T>)
    ensures multiset(Sent(q, r)) + multiset(Left(q, r)) == multiset(q)
    ensures |Sent(q, r)| + |Left(q, r)| == |q|
  {
    var o := Offered(q, r);
    OfferedIsPermutation(q, r);
    SplitMultiset(o, Cut(o, r));
    ReverseIsPermutation(o[Cut(o, r)..]);
  }

  lemma SubsetFitsAlone<T>(p: seq<T>, q: seq<T>, r: Rules<T>)
    requires multiset(p) <= multiset(q) && AllFitAlone(q, r)
    ensures AllFitAlone(p, r)
  {
    forall i | 0 <= i < |p| ensures FitsAlone(p[i], r) {
      assert p[i] in multiset(p);
      assert p[i] in multiset(q);
      assert p[i] in q;
    }
  }

  /** A flush of a non-empty queue sends something, and what it leaves can be flushed again. */
  lemma FlushProgresses<T>(q: seq<T>, r: Rules<T>)
    requires AllFitAlone(q, r)
    ensures AllFitAlone(Left(q, r), r)
    ensures q != [] ==> Sent(q, r) != [] && |Left(q, r)| < |q|
  {
    FlushConserves(q, r);
    OfferedIsPermutation(q, r);
    SubsetFitsAlone(Offered(q, r), q, r);
    SubsetFitsAlone(Left(q, r), q, r);
  }

  // ----- Draining without insertions

  /** The batches of repeated flushes. */
  function Drain<T>(q: seq<T>, r: Rules<T>): seq<seq<T>>
    requires AllFitAlone(q, r)
    decreases |q|
  {
    if q == [] then [] else
      FlushProgresses(q, r);
      [Sent(q, r)] + Drain(Left(q, r), r)
  }

  lemma DrainStep<T>(q: seq<T>, r: Rules<T>)
    requires AllFitAlone(q, r) && q != []
    ensures AllFitAlone(Left(q, r), r) && |Left(q, r)| < |q|
    ensures Flatten(Drain(q, r)) == Sent(q, r) + Flatten(Drain(Left(q, r), r))
  {
    FlushProgresses(q, r);
    assert Drain(q, r)[1..] == Drain(Left(q, r), r);
  }

  lemma {:induction false} DrainSendsEverythingOnce<T>(q: seq<T>, r: Rules<T>)
    requires AllFitAlone(q, r)
    ensures multiset(Flatten(Drain(q, r))) == multiset(q)
    decreases |q|
  {
    if q != [] {
      DrainStep(q, r);
      FlushConserves(q, r);
      DrainSendsEverythingOnce(Left(q, r), r);
    }
  }

  /** No packet of a drain is empty. */
  lemma {:induction false} DrainNeverIdles<T>(q: seq<T>, r: Rules<T>)
    requires AllFitAlone(q, r)
    ensures forall i :: 0 <= i < |Drain(q, r)| ==> Drain(q, r)[i] != []
    decreases |q|
  {
    if q != [] {
      FlushProgresses(q, r);
      DrainNeverIdles(Left(q, r), r);
    }
  }

  lemma SortedAcrossCut<T>(o: seq<T>, k: nat, rest: seq<T>, key: T -> nat)
    requires k <= |o| && Sorted(o, key)
    requires Sorted(rest, key) && multiset(rest) == multiset(o[k..])
    ensures Sorted(o[..k] + rest, key)
  {
    var s := o[..k] + rest;
    forall i, j | 0 <= i < j < |s| ensures key(s[i]) <= key(s[j]) {
      if i < k <= j {
        assert rest[j - k] in multiset(o[k..]);
        var m :| 0 <= m < |o[k..]| && o[k..][m] == rest[j - k];
        assert o[k..][m] == o[k + m];
      } else if k <= i {
        assert s[i] == rest[i - k] && s[j] == rest[j - k];
      }
    }
  }

  /** Sorted drain: over all packets together the keys never decrease, even though what a
      flush leaves is reversed before the next one. */
  lemma {:induction false} SortedDrain<T>(q: seq<T>, r: Rules<T>)
    requires r.sort && AllFitAlone(q, r)
    ensures Sorted(Flatten(Drain(q, r)), r.key)
    decreases |q|
  {
    if q != [] {
      var o := Offered(q, r);
      var k, left := Cut(o, r), Left(q, r);
      DrainStep(q, r);
      SortedDrain(left, r);
      DrainSendsEverythingOnce(left, r);
      SortIsSorted(q, r.key);
      ReverseIsPermutation(o[k..]);
      SortedAcrossCut(o, k, Flatten(Drain(left, r)), r.key);
    }
  }

  /** A queue that never moves: the packer takes alternately from the front in order and from
      the back in reverse. */
  function TwoEnded<T>(q: seq<T>, r: Rules<T>, fromFront: bool): seq<seq<T>>
    requires AllFitAlone(q, r)
    decreases |q|
  {
    if q == [] then []
    else if fromFront then
      var k := Cut(q, r);
      [q[..k]] + TwoEnded(q[k..], r, false)
    else
      ReverseAt(q);
      var k := Cut(Reverse(q), r);
      [Reverse(q[|q| - k..])] + TwoEnded(q[..|q| - k], r, true)
  }

  /** Unsorted drain: repeated flushes are a two-ended drain. */
  lemma {:induction false} UnsortedDrain<T>(q: seq<T>, r: Rules<T>)
    requires !r.sort && AllFitAlone(q, r)
    ensures Drain(q, r) == TwoEnded(q, r, true)
    decreases |q|
  {
    if q != [] {
      FlushProgresses(q, r);
      UnsortedDrainReversed(q[Cut(q, r)..], r);
    }
  }

  lemma {:induction false} UnsortedDrainReversed<T>(q: seq<T>, r: Rules<T>)
    requires !r.sort && AllFitAlone(q, r)
    ensures AllFitAlone(Reverse(q), r)
    ensures Drain(Reverse(q), r) == TwoEnded(q, r, false)
    decreases |q|
  {
    if q != [] {
      var b := Reverse(q);
      ReverseAt(q);
      FlushProgresses(b, r);
      CutReversed(q, Cut(b, r));
      UnsortedDrain(q[..|q| - Cut(b, r)], r);
    }
  }

  /** Cutting a reversed queue takes from the back and leaves the front in order. */
  lemma CutReversed<T>(q: seq<T>, k: nat)
    requires k <= |q|
    ensures Reverse(q)[..k] == Reverse(q[|q| - k..])
    ensures Reverse(Reverse(q)[k..]) == q[..|q| - k]
  {
    ReverseSlice(q, k);
    ReverseTwice(q[..|q| - k]);
  }

  /** The queue after `n` flushes. */
  function Flushed<T>(q: seq<T>, r: Rules<T>, n: nat): seq<T>
    decreases n
  {
    if n == 0 then q else Flushed(Left(q, r), r, n - 1)
  }

  lemma {:induction false} DrainCompletes<T>(q: seq<T>, r: Rules<T>)
    requires AllFitAlone(q, r)
    ensures Flushed(q, r, |Drain(q, r)|) == []
    decreases |q|
  {
    if q != [] {
      FlushProgresses(q, r);
      DrainCompletes(Left(q, r), r);
    }
  }

  lemma OversizedIsNotSent<T(!new)>(q: seq<T>, r: Rules<T>, x: T)
    requires Sane(r) && !FitsAlone(x, r)
    ensures x !in Sent(q, r)
  {
    var o := Offered(q, r);
    CutIsFirstWithoutRoom(o, r, r.base);
    forall i | 0 <= i < |Sent(q, r)| ensures Sent(q, r)[i] != x {
      assert HasRoom(o, r, r.base, i);
    }
  }

  lemma {:induction false} OversizedStays<T(!new)>(q: seq<T>, r: Rules<T>, n: nat, x: T)
    requires Sane(r) && x in multiset(q) && !FitsAlone(x, r)
    ensures x in multiset(Flushed(q, r, n))
    decreases n
  {
    if n > 0 {
      OversizedIsNotSent(q, r, x);
      FlushConserves(q, r);
      assert x !in multiset(Sent(q, r));
      OversizedStays(Left(q, r), r, n - 1, x);
    }
  }

  /** Flushing empties a queue if and only if every element fits into a packet of its own. */
  lemma DrainsIffAllFitAlone<T(!new)>(q: seq<T>, r: Rules<T>)
    requires Sane(r)
    ensures AllFitAlone(q, r) <==> exists n :: Flushed(q, r, n) == []
  {
    if AllFitAlone(q, r) {
      DrainCompletes(q, r);
    } else {
      var i :| 0 <= i < |q| && !FitsAlone(q[i], r);
      assert q[i] in multiset(q);
      forall n: nat ensures Flushed(q, r, n) != [] {
        OversizedStays(q, r, n, q[i]);
      }
    }
  }

  // ----- Runs of insertions and flushes, sorting off

  datatype Event<T> = Put(x: T) | Flush

  /** The queue, the batches sent so far, and whether the size threshold has asked for a flush
      that has not come yet. */
  datatype Pipe<T> = Pipe(queue: seq<T>, batches: seq<seq<T>>, pending: bool)

  /** The queue is so long that not even an element of the minimal size `reserve` would be
      sure to fit. */
  predicate Full<T>(q: seq<T>, r: Rules<T>, reserve: nat) {
    Sum(q, r.slot) + r.base + reserve >= r.limit
  }

  function Step<T>(p: Pipe<T>, e: Event<T>, r: Rules<T>, reserve: nat): Pipe<T> {
    match e
    case Put(x) => Pipe(p.queue + [x], p.batches, p.pending || Full(p.queue + [x], r, reserve))
    case Flush => Pipe(Left(p.queue, r), p.batches + [Sent(p.queue, r)], false)
  }

  function Run<T>(p: Pipe<T>, es: seq<Event<T>>, r: Rules<T>, reserve: nat): Pipe<T>
    decreases |es|
  {
    if es == [] then p else Run(Step(p, es[0], r, reserve), es[1..], r, reserve)
  }

  function Arrival<T>(e: Event<T>): seq<T> {
    if e.Put? then [e.x] else []
  }

  function Inserted<T>(es: seq<Event<T>>): seq<T> {
    if es == [] then [] else Arrival(es[0]) + Inserted(es[1..])
  }

  lemma {:induction false} RunAppend<T>(p: Pipe<T>, es: seq<Event<T>>, more: seq<Event<T>>, r: Rules<T>, reserve: nat)
    ensures Run(p, es + more, r, reserve) == Run(Run(p, es, r, reserve), more, r, reserve)
    decreases |es|
  {
    if es == [] {
      assert es + more == more;
    } else {
      assert (es + more)[1..] == es[1..] + more;
      RunAppend(Step(p, es[0], r, reserve), es[1..], more, r, reserve);
    }
  }

  lemma {:induction false} InsertedAppend<T>(es: seq<Event<T>>, more: seq<Event<T>>)
    ensures Inserted(es + more) == Inserted(es) + Inserted(more)
  {
    if es == [] {
      assert es + more == more;
    } else {
      assert (es + more)[1..] == es[1..] + more;
      InsertedAppend(es[1..], more);
    }
  }

  /** A flush that the threshold asked for comes before the next insertion; other flushes come
      at any time. Everything inserted fits into a packet of its own. */
  predicate Prompt<T>(p: Pipe<T>, es: seq<Event<T>>, r: Rules<T>, reserve: nat)
    decreases |es|
  {
    es == [] ||
    (&& (es[0].Put? ==> !p.pending && FitsAlone(es[0].x, r))
     && Prompt(Step(p, es[0], r, reserve), es[1..], r, reserve))
  }

  /** What a prompt run keeps: all but the last element fit, and all do unless a flush is
      pending. */
  ghost predicate Slack<T>(p: Pipe<T>, r: Rules<T>) {
    && AllFitAlone(p.queue, r)
    && r.base <= r.limit
    && (!p.pending ==> r.base + Sum(p.queue, r.slot) <= r.limit)
    && (p.pending ==> p.queue != [] && r.base + Sum(p.queue[..|p.queue| - 1], r.slot) <= r.limit)
  }

  lemma AtMostOneLeft<T(!new)>(p: Pipe<T>, r: Rules<T>)
    requires Sane(r) && !r.sort && Slack(p, r)
    ensures |Left(p.queue, r)| <= 1
    ensures Sent(p.queue, r) + Left(p.queue, r) == p.queue
  {
    var q := p.queue;
    var k := Cut(q, r);
    if p.pending {
      SlotsFit(q, r, r.base, |q| - 1);
    } else {
      assert q[..|q|] == q;
      SlotsFit(q, r, r.base, |q|);
    }
    assert Reverse(q[k..]) == q[k..];
  }

  lemma StepKeepsSlack<T(!new)>(p: Pipe<T>, e: Event<T>, r: Rules<T>, reserve: nat)
    requires Sane(r) && !r.sort && Slack(p, r)
    requires e.Put? ==> !p.pending && FitsAlone(e.x, r)
    ensures Slack(Step(p, e, r, reserve), r)
  {
    match e
    case Put(x) =>
      assert (p.queue + [x])[..|p.queue|] == p.queue;
    case Flush =>
      AtMostOneLeft(p, r);
      FlushProgresses(p.queue, r);
      var left := Left(p.queue, r);
      if left != [] {
        assert left == [left[0]] && FitsAlone(left[0], r);
        SumOne(left[0], r.slot);
      }
  }

  /** Everything that went through: sent, in the order sent, then queued. */
  function Traffic<T>(p: Pipe<T>): seq<T> {
    Flatten(p.batches) + p.queue
  }

  lemma StepIsFifo<T(!new)>(p: Pipe<T>, e: Event<T>, r: Rules<T>, reserve: nat)
    requires Sane(r) && !r.sort && Slack(p, r)
    ensures Traffic(Step(p, e, r, reserve)) == Traffic(p) + Arrival(e)
  {
    if e.Flush? {
      AtMostOneLeft(p, r);
      FlattenAppend(p.batches, Sent(p.queue, r));
    }
  }

  /** First in, first out, over every prompt run: what was sent, in the order sent, followed by
      what is queued is what was inserted. */
  lemma {:induction false} PromptRunsAreFifo<T(!new)>(p: Pipe<T>, es: seq<Event<T>>, r: Rules<T>, reserve: nat,
                                                      before: seq<T>)
    requires Sane(r) && !r.sort && Slack(p, r) && Prompt(p, es, r, reserve)
    requires before == Traffic(p)
    ensures Traffic(Run(p, es, r, reserve)) == before + Inserted(es)
    decreases |es|
  {
    if es != [] {
      var next, arrived := Step(p, es[0], r, reserve), Arrival(es[0]);
      StepKeepsSlack(p, es[0], r, reserve);
      StepIsFifo(p, es[0], r, reserve);
      PromptRunsAreFifo(next, es[1..], r, reserve, before + arrived);
      Associative(before, arrived, Inserted(es[1..]));
    }
  }

  // ----- Exactly the runs that keep the order

  /** No flush of the run leaves more than one element. */
  predicate Straight<T>(p: Pipe<T>, es: seq<Event<T>>, r: Rules<T>, reserve: nat)
    decreases |es|
  {
    es == [] ||
    (&& (es[0].Flush? ==> Cut(p.queue, r) >= |p.queue| - 1)
     && Straight(Step(p, es[0], r, reserve), es[1..], r, reserve))
  }

  /** `x` went through as number `n` and is sent, or the next to be sent. */
  ghost predicate Settled<T>(p: Pipe<T>, n: nat, x: T) {
    n < |Traffic(p)| && n <= |Flatten(p.batches)| && Traffic(p)[n] == x
  }

  lemma StepKeepsSettled<T>(p: Pipe<T>, e: Event<T>, r: Rules<T>, reserve: nat, n: nat, x: T)
    requires !r.sort && AllFitAlone(p.queue, r) && Settled(p, n, x)
    ensures Settled(Step(p, e, r, reserve), n, x)
  {
    if e.Flush? {
      var sent := Sent(p.queue, r);
      FlushProgresses(p.queue, r);
      FlattenAppend(p.batches, sent);
      if n == |Flatten(p.batches)| {
        assert sent[0] == p.queue[0];
      }
    }
  }

  lemma {:induction false} RunKeepsSettled<T>(p: Pipe<T>, es: seq<Event<T>>, r: Rules<T>, reserve: nat, n: nat, x: T)
    requires !r.sort && AllFitAlone(p.queue, r) && AllFitAlone(Inserted(es), r) && Settled(p, n, x)
    ensures Settled(Run(p, es, r, reserve), n, x)
    decreases |es|
  {
    if es != [] {
      StepKeepsSettled(p, es[0], r, reserve, n, x);
      StepFitsAlone(p, es, r, reserve);
      RunKeepsSettled(Step(p, es[0], r, reserve), es[1..], r, reserve, n, x);
    }
  }

  lemma StepFitsAlone<T>(p: Pipe<T>, es: seq<Event<T>>, r: Rules<T>, reserve: nat)
    requires es != [] && AllFitAlone(p.queue, r) && AllFitAlone(Inserted(es), r)
    ensures AllFitAlone(Step(p, es[0], r, reserve).queue, r) && AllFitAlone(Inserted(es[1..]), r)
  {
    var a, rest := Arrival(es[0]), Inserted(es[1..]);
    forall i | 0 <= i < |rest| ensures FitsAlone(rest[i], r) {
      assert rest[i] == Inserted(es)[|a| + i];
    }
    if es[0].Flush? {
      FlushProgresses(p.queue, r);
    } else {
      assert FitsAlone(Inserted(es)[0], r);
    }
  }

  lemma TrafficAfterFlush<T>(p: Pipe<T>, r: Rules<T>, reserve: nat)
    requires !r.sort
    ensures var b, k := Flatten(p.batches), Cut(p.queue, r);
            var p' := Step(p, Flush, r, reserve);
            Flatten(p'.batches) == b + p.queue[..k] && Traffic(p') == b + (p.queue[..k] + Reverse(p.queue[k..]))
  {
    var b, k := Flatten(p.batches), Cut(p.queue, r);
    FlattenAppend(p.batches, p.queue[..k]);
    Associative(b, p.queue[..k], Reverse(p.queue[k..]));
  }

  lemma ShortReverse<T>(s: seq<T>)
    requires |s| <= 1
    ensures Reverse(s) == s
  {
  }

  /** A flush that leaves at most one element keeps the order; any other one settles an element
      before its turn. */
  lemma FlushSettles<T>(p: Pipe<T>, r: Rules<T>, reserve: nat)
    requires !r.sort && Distinct(Traffic(p))
    ensures var p', n := Step(p, Flush, r, reserve), |Flatten(p.batches)| + Cut(p.queue, r);
            if Cut(p.queue, r) >= |p.queue| - 1 then Traffic(p') == Traffic(p)
            else n < |Traffic(p)| && Settled(p', n, p.queue[|p.queue| - 1]) && Traffic(p)[n] != p.queue[|p.queue| - 1]
  {
    var q, b, k := p.queue, Flatten(p.batches), Cut(p.queue, r);
    TrafficAfterFlush(p, r, reserve);
    if k >= |q| - 1 {
      ShortReverse(q[k..]);
      assert q[..k] + q[k..] == q;
    } else {
      ReverseAt(q[k..]);
      LastBeforeTurn(b, q, k, Reverse(q[k..]));
    }
  }

  lemma LastBeforeTurn<T>(b: seq<T>, q: seq<T>, k: nat, left: seq<T>)
    requires k < |q| - 1 && |left| == |q| - k && left[0] == q[|q| - 1] && Distinct(b + q)
    ensures (b + (q[..k] + left))[|b| + k] == q[|q| - 1] != (b + q)[|b| + k]
  {
    assert (b + q)[|b| + k] == q[k] && (b + q)[|b| + |q| - 1] == q[|q| - 1];
  }

  /** Exactly the runs without a flush that leaves more than one element are first in, first
      out. Delivery times aside, this is the condition under which the tunnel keeps the order. */
  lemma {:induction false} FifoIff<T>(p: Pipe<T>, es: seq<Event<T>>, r: Rules<T>, reserve: nat, before: seq<T>)
    requires !r.sort && before == Traffic(p) && Distinct(before + Inserted(es))
    requires AllFitAlone(p.queue, r) && AllFitAlone(Inserted(es), r)
    ensures Traffic(Run(p, es, r, reserve)) == before + Inserted(es) <==> Straight(p, es, r, reserve)
    decreases |es|
  {
    if es != [] {
      var next, a, rest := Step(p, es[0], r, reserve), Arrival(es[0]), Inserted(es[1..]);
      StepFitsAlone(p, es, r, reserve);
      Associative(before, a, rest);
      if es[0].Put? || Cut(p.queue, r) >= |p.queue| - 1 {
        if es[0].Flush? {
          DistinctPrefix(before, Inserted(es));
          FlushSettles(p, r, reserve);
        }
        assert Traffic(next) == before + a;
        FifoIff(next, es[1..], r, reserve, before + a);
      } else {
        DistinctPrefix(before, Inserted(es));
        FlushSettles(p, r, reserve);
        var n := |Flatten(p.batches)| + Cut(p.queue, r);
        RunKeepsSettled(next, es[1..], r, reserve, n, p.queue[|p.queue| - 1]);
        assert (before + Inserted(es))[n] == before[n];
      }
    }
  }
}
