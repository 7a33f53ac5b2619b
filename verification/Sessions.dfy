/**
 SCTP sessions: frames are queued only while a peer is connected, a server empties its queue
 when it accepts a connection, a client does not. Connecting and emptying are one step. At any
 time a read from the CAN socket may take the newest frame back.
 */
module Sessions {
  import opened Packing
  import opened Sequences

  datatype Role = Server | Client

  datatype Event<T> = Connect | Disconnect | Arrive(x: T) | Evict | Flush

  /** The connection's history: what the queue held when it came up, and what was inserted, taken
      back and sent since. */
  datatype Session<T> = Session(connected: bool, queue: seq<T>, carried: seq<T>, inserted: seq<T>,
                                lost: seq<T>, sent: seq<seq<T>>)

  function Start<T>(): Session<T> { Session(false, [], [], [], [], []) }

  /** A client's connection that comes up with `q` queued. */
  function Fresh<T>(q: seq<T>): Session<T> { Session(true, q, q, [], [], []) }

  predicate Possible<T>(s: Session<T>, e: Event<T>) {
    match e
    case Connect => !s.connected
    case Disconnect => s.connected
    case Arrive(_) => true
    case Evict => s.queue != []
    case Flush => s.connected
  }

  function Step<T>(s: Session<T>, e: Event<T>, role: Role, r: Rules<T>): Session<T>
    requires Possible(s, e)
  {
    match e
    case Connect =>
      Fresh(if role == Server then [] else s.queue)
    case Disconnect => s.(connected := false)
    case Arrive(x) =>
      if s.connected then s.(queue := s.queue + [x], inserted := s.inserted + [x]) else s
    case Evict =>
      var n := |s.queue| - 1;
      s.(queue := s.queue[..n], lost := s.lost + [s.queue[n]])
    case Flush => s.(queue := Left(s.queue, r), sent := s.sent + [Sent(s.queue, r)])
  }

  /** What every step keeps: nothing is lost or made up on a connection. */
  ghost predicate Conserved<T>(s: Session<T>) {
    multiset(Flatten(s.sent)) + multiset(s.lost) + multiset(s.queue) == multiset(s.carried) + multiset(s.inserted)
  }

  /** Everything sent on this connection was inserted during it. */
  ghost predicate Isolated<T>(s: Session<T>) {
    multiset(Flatten(s.sent)) <= multiset(s.inserted)
  }

  lemma AppendToBoth<T>(a: multiset<T>, q: seq<T>, b: multiset<T>, p: seq<T>, x: T)
    requires a + multiset(q) == b + multiset(p)
    ensures a + multiset(q + [x]) == b + multiset(p + [x])
  {
    assert multiset(q + [x]) == multiset(q) + multiset{x};
    assert multiset(p + [x]) == multiset(p) + multiset{x};
    assert a + multiset(q + [x]) == (a + multiset(q)) + multiset{x};
    assert b + multiset(p + [x]) == (b + multiset(p)) + multiset{x};
  }

  lemma MoveLast<T>(a: multiset<T>, lost: seq<T>, q: seq<T>)
    requires q != []
    ensures a + multiset(lost + [q[|q| - 1]]) + multiset(q[..|q| - 1]) == a + multiset(lost) + multiset(q)
  {
    var n := |q| - 1;
    assert q == q[..n] + [q[n]];
    assert multiset(q) == multiset(q[..n]) + multiset{q[n]};
    assert multiset(lost + [q[n]]) == multiset(lost) + multiset{q[n]};
  }

  lemma MoveBatch<T>(sent: seq<T>, batch: seq<T>, lost: seq<T>, left: seq<T>)
    ensures multiset(sent + batch) + multiset(lost) + multiset(left)
         == multiset(sent) + multiset(lost) + (multiset(batch) + multiset(left))
  {
    assert multiset(sent + batch) == multiset(sent) + multiset(batch);
  }

  lemma StepConserves<T>(s: Session<T>, e: Event<T>, role: Role, r: Rules<T>)
    requires Conserved(s) && Possible(s, e)
    ensures Conserved(Step(s, e, role, r))
  {
    var s' := Step(s, e, role, r);
    match e
    case Connect =>
      assert Flatten(s'.sent) == [];
    case Disconnect =>
    case Arrive(x) =>
      AppendToBoth(multiset(Flatten(s.sent)) + multiset(s.lost), s.queue, multiset(s.carried), s.inserted, x);
    case Evict =>
      MoveLast(multiset(Flatten(s.sent)), s.lost, s.queue);
    case Flush =>
      FlushConserves(s.queue, r);
      FlattenAppend(s.sent, Sent(s.queue, r));
      MoveBatch(Flatten(s.sent), Sent(s.queue, r), s.lost, s'.queue);
  }

  lemma NothingCarried<T>(s: Session<T>)
    requires Conserved(s) && s.carried == []
    ensures Isolated(s)
  {
    assert multiset(Flatten(s.sent)) + multiset(s.lost) + multiset(s.queue) == multiset(s.inserted);
  }

  predicate Runs<T>(s: Session<T>, es: seq<Event<T>>, role: Role, r: Rules<T>)
    decreases |es|
  {
    es == [] || (Possible(s, es[0]) && Runs(Step(s, es[0], role, r), es[1..], role, r))
  }

  function Run<T>(s: Session<T>, es: seq<Event<T>>, role: Role, r: Rules<T>): Session<T>
    requires Runs(s, es, role, r)
    decreases |es|
  {
    if es == [] then s else Run(Step(s, es[0], role, r), es[1..], role, r)
  }

  /** Conservation over every run of either role; a server's connection starts empty. */
  lemma {:induction false} RunConserves<T>(s: Session<T>, es: seq<Event<T>>, role: Role, r: Rules<T>)
    requires Conserved(s) && Runs(s, es, role, r)
    ensures Conserved(Run(s, es, role, r))
    ensures role == Server && s.carried == [] ==> Run(s, es, role, r).carried == []
    decreases |es|
  {
    if es != [] {
      StepConserves(s, es[0], role, r);
      RunConserves(Step(s, es[0], role, r), es[1..], role, r);
    }
  }

  /** Server session isolation, over all runs of connects, disconnects, insertions and flushes. */
  lemma ServerIsIsolated<T>(es: seq<Event<T>>, r: Rules<T>)
    requires Runs(Start(), es, Server, r)
    ensures Isolated(Run(Start(), es, Server, r))
  {
    RunConserves(Start(), es, Server, r);
    NothingCarried(Run(Start(), es, Server, r));
  }

  predicate OneConnection<T>(es: seq<Event<T>>) {
    forall i :: 0 <= i < |es| ==> !es[i].Connect?
  }

  lemma {:induction false} CarriedStays<T>(s: Session<T>, es: seq<Event<T>>, role: Role, r: Rules<T>)
    requires Runs(s, es, role, r) && OneConnection(es)
    ensures Run(s, es, role, r).carried == s.carried
    decreases |es|
  {
    if es != [] {
      CarriedStays(Step(s, es[0], role, r), es[1..], role, r);
    }
  }

  /** Everything that can happen on a connection that a client opens with `q` queued. */
  ghost predicate AlwaysIsolated<T(!new)>(q: seq<T>, r: Rules<T>) {
    forall es: seq<Event<T>> ::
      var s := Fresh(q);
      Runs(s, es, Client, r) && OneConnection(es) ==> Isolated(Run(s, es, Client, r))
  }

  /** A client's connection is isolated, whatever happens on it, if and only if its queue was
      empty when the connection came up. */
  lemma ClientIsIsolatedIff<T(!new)>(q: seq<T>, r: Rules<T>)
    requires AllFitAlone(q, r)
    ensures AlwaysIsolated(q, r) <==> q == []
  {
    var s := Fresh(q);
    if q == [] {
      forall es: seq<Event<T>> | Runs(s, es, Client, r) && OneConnection(es)
        ensures Isolated(Run(s, es, Client, r))
      {
        RunConserves(s, es, Client, r);
        CarriedStays(s, es, Client, r);
        NothingCarried(Run(s, es, Client, r));
      }
    } else {
      CarriedLeaks(q, r);
    }
  }

  /** The first flush sends what the previous connection left. */
  lemma CarriedLeaks<T>(q: seq<T>, r: Rules<T>)
    requires AllFitAlone(q, r) && q != []
    ensures var s, es := Fresh(q), [Event.Flush];
            Runs(s, es, Client, r) && OneConnection(es) && !Isolated(Run(s, es, Client, r))
  {
    var s, es := Fresh(q), [Event<T>.Flush];
    assert es[1..] == [];
    var s' := Step(s, es[0], Client, r);
    assert Run(s, es, Client, r) == s';
    FlushProgresses(q, r);
    FlattenAppend([], Sent(q, r));
    assert [] + [Sent(q, r)] == s'.sent;
    assert Sent(q, r)[0] in multiset(Flatten(s'.sent));
  }

  /** Frames arrive, the connection breaks and comes up again. */
  function Reconnect<T>(q: seq<T>): seq<Event<T>> {
    if q == [] then [Disconnect, Connect] else [Arrive(q[0])] + Reconnect(q[1..])
  }

  /** Every such connection can come about: a client's first connection that breaks before its
      queue is flushed leaves anything to the next one. */
  lemma FreshIsReachable<T>(q: seq<T>, r: Rules<T>)
    ensures var es := [Event.Connect] + Reconnect(q);
            Runs(Start(), es, Client, r) && Run(Start(), es, Client, r) == Fresh(q)
  {
    var es := [Event.Connect] + Reconnect(q);
    assert es[1..] == Reconnect(q);
    Reconnects(Fresh([]), q, r);
    assert [] + q == q;
  }

  lemma {:induction false} Reconnects<T>(s: Session<T>, q: seq<T>, r: Rules<T>)
    requires s.connected
    ensures Runs(s, Reconnect(q), Client, r) && Run(s, Reconnect(q), Client, r) == Fresh(s.queue + q)
    decreases |q|
  {
    var es := Reconnect(q);
    if q == [] {
      assert s.queue + q == s.queue;
      var s' := Step(s, es[0], Client, r);
      assert es[1..] == [Event.Connect] && es[1..][1..] == [];
      assert Runs(s', es[1..], Client, r) && Run(s', es[1..], Client, r) == Fresh(s.queue);
    } else {
      assert es[1..] == Reconnect(q[1..]);
      Reconnects(Step(s, es[0], Client, r), q[1..], r);
      Associative(s.queue, [q[0]], q[1..]);
      assert [q[0]] + q[1..] == q;
    }
  }
}
