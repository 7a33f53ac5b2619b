/**
 The receiving queue as a bounded queue: frames are appended while there is room, and then
 each new frame takes the place of the newest one.
 */
module Inbox {

  /** The frames a buffer can still hand out: free ones and those it may yet allocate. */
  datatype Capacity = Unbounded | Room(n: nat)

  function Used(c: Capacity, k: nat): Capacity {
    if c.Unbounded? then c else Room(if k <= c.n then c.n - k else 0)
  }

  function Freed(c: Capacity, k: nat): Capacity {
    if c.Unbounded? then c else Room(c.n + k)
  }

  /** Neither a free frame nor a queued one to take back. */
  predicate Stuck<T>(q: seq<T>, c: Capacity) { c == Room(0) && q == [] }

  /** The queue from which a frame for the next arrival has been obtained. */
  function Cleared<T>(q: seq<T>, c: Capacity): seq<T>
    requires !Stuck(q, c)
  {
    if c == Room(0) then q[..|q| - 1] else q
  }

  /** What `n` arrivals make of a queue. */
  function BoundedAppend<T>(q: seq<T>, c: Capacity, xs: seq<T>): seq<T>
    requires !Stuck(q, c)
  {
    if c.Unbounded? || |xs| <= c.n then q + xs
    else if c.n > 0 then q + xs[..c.n - 1] + [xs[|xs| - 1]]
    else q[..|q| - 1] + [xs[|xs| - 1]]
  }

  lemma NeverStuckAgain<T>(q: seq<T>, c: Capacity, xs: seq<T>)
    requires !Stuck(q, c)
    ensures !Stuck(BoundedAppend(q, c, xs), Used(c, |xs|))
  {
  }

  /** One arrival more: a frame is obtained and appended. */
  lemma BoundedAppendNext<T>(q: seq<T>, c: Capacity, xs: seq<T>, x: T)
    requires !Stuck(q, c)
    ensures !Stuck(BoundedAppend(q, c, xs), Used(c, |xs|))
    ensures BoundedAppend(q, c, xs + [x]) == Cleared(BoundedAppend(q, c, xs), Used(c, |xs|)) + [x]
    ensures Used(c, |xs| + 1) == Used(Used(c, |xs|), 1)
  {
    if c.Room? && |xs| == c.n && c.n > 0 {
      assert q + xs == q + xs[..c.n - 1] + [xs[c.n - 1]];
      assert (xs + [x])[..c.n - 1] == xs[..c.n - 1];
    } else if c.Room? && c.n < |xs| && c.n > 0 {
      assert (xs + [x])[..c.n - 1] == xs[..c.n - 1];
    }
  }

  lemma UsedTwice(c: Capacity, i: nat, j: nat)
    ensures Used(Used(c, i), j) == Used(c, i + j)
  {
  }

  /** Arrivals in two portions are arrivals in one. */
  lemma {:induction false} BoundedAppendTwice<T>(q: seq<T>, c: Capacity, a: seq<T>, b: seq<T>)
    requires !Stuck(q, c)
    ensures !Stuck(BoundedAppend(q, c, a), Used(c, |a|))
    ensures BoundedAppend(BoundedAppend(q, c, a), Used(c, |a|), b) == BoundedAppend(q, c, a + b)
    decreases |b|
  {
    NeverStuckAgain(q, c, a);
    if b == [] {
      assert a + b == a;
      assert BoundedAppend(q, c, a) + b == BoundedAppend(q, c, a);
    } else {
      var n := |b| - 1;
      BoundedAppendTwice(q, c, a, b[..n]);
      BoundedAppendNext(BoundedAppend(q, c, a), Used(c, |a|), b[..n], b[n]);
      BoundedAppendNext(q, c, a + b[..n], b[n]);
      UsedTwice(c, |a|, n);
      assert b[..n] + [b[n]] == b && a + b[..n] + [b[n]] == a + b;
    }
  }
}
