/**
 A run of SCTP connections as a machine: connections come up and break, frames are read from
 the CAN bus, expiries flush. Its state is the session, the room of the frame buffer and the
 sessions before it. `SctpThreads` proves that the objects are this machine; here is what it
 promises of each connection.
 */
module Links {
  import opened Can
  import opened Codec
  import opened Inbox
  import Packing
  import opened Pipeline
  import opened Sequences
  import opened Sessions

  /** Whether a connection came up, what a receive returned, a read from the CAN socket, how
      often the timer expired. */
  datatype Call =
    | Establish(ok: bool)
    | Message(receivedBytes: int)
    | FromCan(read: Read)
    | Timer(expirations: nat, transmitted: bool)

  datatype Line = Line(session: Session<Wire>, room: Capacity, past: seq<Session<Wire>>)

  /** The thread waits for connections while it has none, and for messages and expiries while it
      has one. */
  predicate Possible(connected: bool, call: Call) {
    match call
    case Establish(_) => !connected
    case Message(_) => connected
    case FromCan(read) => read.Sane()
    case Timer(_, _) => connected
  }

  /** What a read from the CAN socket is to a session: a full buffer gives up its newest frame,
      a complete frame arrives. */
  function AfterRead(s: Session<Wire>, c: Capacity, read: Read, role: Role, r: Packing.Rules<Wire>): Session<Wire>
    requires read.Sane()
  {
    if Stuck(s.queue, c) then s
    else
      var vacated := if c == Room(0) then Sessions.Step(s, Evict, role, r) else s;
      if read.Complete() then Sessions.Step(vacated, Arrive(read.Image()), role, r) else vacated
  }

  /** And to the room: a frame that is not queued comes back, unless the read was of an odd size. */
  function RoomLeft(s: Session<Wire>, c: Capacity, read: Read): Capacity {
    if Stuck(s.queue, c) then c
    else if read.Failed? || (read.Complete() && !s.connected) then Freed(Used(c, 1), 1)
    else Used(c, 1)
  }

  function Next(l: Line, call: Call, role: Role, r: Packing.Rules<Wire>): Line
    requires Possible(l.session.connected, call)
  {
    var s := l.session;
    match call
    case Establish(ok) =>
      if !ok then l
      else Line(Sessions.Step(s, Event.Connect, role, r),
                if role == Server then Freed(l.room, |s.queue|) else l.room, l.past + [s])
    case Message(n) => if n > 0 then l else l.(session := Sessions.Step(s, Disconnect, role, r))
    case FromCan(read) => Line(AfterRead(s, l.room, read, role, r), RoomLeft(s, l.room, read), l.past)
    case Timer(n, _) =>
      if n == 0 || s.queue == [] then l
      else Line(Sessions.Step(s, Event.Flush, role, r), Freed(l.room, |Packing.Sent(s.queue, r)|), l.past)
  }

  predicate Runs(l: Line, calls: seq<Call>, role: Role, r: Packing.Rules<Wire>)
    decreases |calls|
  {
    calls == [] || (Possible(l.session.connected, calls[0]) && Runs(Next(l, calls[0], role, r), calls[1..], role, r))
  }

  function Run(l: Line, calls: seq<Call>, role: Role, r: Packing.Rules<Wire>): Line
    requires Runs(l, calls, role, r)
    decreases |calls|
  {
    if calls == [] then l else Run(Next(l, calls[0], role, r), calls[1..], role, r)
  }

  function Connections(l: Line): seq<Session<Wire>> { l.past + [l.session] }

  // ----- What an observer of the calls knows

  /** Whether there is a connection, and what was read from the CAN bus during it and during each
      one before. */
  datatype Log = Log(connected: bool, images: seq<Wire>, past: seq<seq<Wire>>)

  function Noted(log: Log, call: Call): Log
    requires Possible(log.connected, call)
  {
    match call
    case Establish(ok) => if ok then Log(true, [], log.past + [log.images]) else log
    case Message(n) => if n > 0 then log else log.(connected := false)
    case FromCan(read) =>
      if log.connected && read.Complete() then log.(images := log.images + [read.Image()]) else log
    case Timer(_, _) => log
  }

  predicate Feasible(log: Log, calls: seq<Call>)
    decreases |calls|
  {
    calls == [] || (Possible(log.connected, calls[0]) && Feasible(Noted(log, calls[0]), calls[1..]))
  }

  function LogOf(log: Log, calls: seq<Call>): Log
    requires Feasible(log, calls)
    decreases |calls|
  {
    if calls == [] then log else LogOf(Noted(log, calls[0]), calls[1..])
  }

  function ReadDuring(log: Log): seq<seq<Wire>> { log.past + [log.images] }

  // ----- Every connection is accounted for

  /** The session conserves frames, and a server's starts empty. */
  ghost predicate Orderly(s: Session<Wire>, role: Role) {
    Conserved(s) && (role == Server ==> s.carried == [])
  }

  /** All that the session counts as inserted was read during the connection. */
  ghost predicate Accounted(s: Session<Wire>, role: Role, images: seq<Wire>) {
    Orderly(s, role) && multiset(s.inserted) <= multiset(images)
  }

  ghost predicate AllAccounted(l: Line, role: Role, log: Log) {
    && l.session.connected == log.connected
    && Accounted(l.session, role, log.images)
    && |l.past| == |log.past|
    && forall i :: 0 <= i < |l.past| ==> Accounted(l.past[i], role, log.past[i])
  }

  lemma ReadIsAccounted(s: Session<Wire>, c: Capacity, read: Read, role: Role, r: Packing.Rules<Wire>,
                        images: seq<Wire>)
    requires Accounted(s, role, images) && read.Sane()
    ensures var s' := AfterRead(s, c, read, role, r);
            && s'.connected == s.connected
            && Accounted(s', role, if s.connected && read.Complete() then images + [read.Image()] else images)
  {
    if !Stuck(s.queue, c) {
      var v := if c == Room(0) then Sessions.Step(s, Evict, role, r) else s;
      if c == Room(0) {
        StepConserves(s, Evict, role, r);
      }
      if read.Complete() {
        StepConserves(v, Arrive(read.Image()), role, r);
        MoreOfBoth(s.inserted, images, read.Image());
      }
    }
    if read.Complete() {
      assert multiset(images + [read.Image()]) == multiset(images) + multiset{read.Image()};
    }
  }

  lemma MoreOfBoth(a: seq<Wire>, b: seq<Wire>, x: Wire)
    requires multiset(a) <= multiset(b)
    ensures multiset(a + [x]) <= multiset(b + [x])
  {
    assert multiset(a + [x]) == multiset(a) + multiset{x};
    assert multiset(b + [x]) == multiset(b) + multiset{x};
  }

  lemma NextIsAccounted(l: Line, call: Call, role: Role, r: Packing.Rules<Wire>, log: Log)
    requires AllAccounted(l, role, log) && Possible(log.connected, call)
    ensures AllAccounted(Next(l, call, role, r), role, Noted(log, call))
  {
    match call
    case Establish(ok) => StepConserves(l.session, Event.Connect, role, r);
    case Message(n) => StepConserves(l.session, Disconnect, role, r);
    case FromCan(read) => ReadIsAccounted(l.session, l.room, read, role, r, log.images);
    case Timer(n, _) => StepConserves(l.session, Event.Flush, role, r);
  }

  /** Over every run, each connection of the machine is accounted for by what was read during it;
      and what the calls make possible the machine can do. */
  lemma {:induction false} RunIsAccounted(l: Line, calls: seq<Call>, role: Role, r: Packing.Rules<Wire>, log: Log)
    requires AllAccounted(l, role, log)
    ensures Runs(l, calls, role, r) <==> Feasible(log, calls)
    ensures Feasible(log, calls) ==> AllAccounted(Run(l, calls, role, r), role, LogOf(log, calls))
    decreases |calls|
  {
    if calls != [] && Possible(log.connected, calls[0]) {
      NextIsAccounted(l, calls[0], role, r, log);
      RunIsAccounted(Next(l, calls[0], role, r), calls[1..], role, r, Noted(log, calls[0]));
    }
  }

  // ----- The packets of each connection

  /** What was sent on a connection can be told from its packets. */
  ghost predicate Lawful(s: Session<Wire>) { Small(s.sent) && AllValid(Flatten(s.sent)) }

  ghost predicate AllLawful(ss: seq<Session<Wire>>) {
    forall i :: 0 <= i < |ss| ==> Lawful(ss[i])
  }

  /** The packets of each connection, numbered on from `seqNo`. */
  ghost function Spans(ss: seq<Session<Wire>>, seqNo: uint8): (ps: seq<seq<seq<uint8>>>)
    requires AllLawful(ss)
    ensures |ps| == |ss|
  {
    if ss == [] then [] else [Packets(ss[0].sent, seqNo)] + Spans(ss[1..], Numbered(seqNo, |ss[0].sent|))
  }

  function NumberAfter(ss: seq<Session<Wire>>, seqNo: uint8): uint8 {
    if ss == [] then seqNo else NumberAfter(ss[1..], Numbered(seqNo, |ss[0].sent|))
  }

  lemma {:induction false} SpansAppend(ss: seq<Session<Wire>>, s: Session<Wire>, seqNo: uint8)
    requires AllLawful(ss) && Lawful(s)
    ensures AllLawful(ss + [s])
    ensures Spans(ss + [s], seqNo) == Spans(ss, seqNo) + [Packets(s.sent, NumberAfter(ss, seqNo))]
    ensures NumberAfter(ss + [s], seqNo) == Numbered(NumberAfter(ss, seqNo), |s.sent|)
  {
    if ss == [] {
      assert ss + [s] == [s] && [s][1..] == [];
    } else {
      assert (ss + [s])[1..] == ss[1..] + [s];
      SpansAppend(ss[1..], s, Numbered(seqNo, |ss[0].sent|));
    }
  }

  /** One more connection after those whose packets are already in `before`. */
  lemma SpansGrow(first: seq<seq<uint8>>, ss: seq<Session<Wire>>, s: Session<Wire>, seqNo: uint8,
                  before: seq<seq<uint8>>, packets: seq<seq<uint8>>)
    requires AllLawful(ss) && Lawful(s) && before == first + Flatten(Spans(ss, seqNo))
    requires packets == before + Packets(s.sent, NumberAfter(ss, seqNo))
    ensures AllLawful(ss + [s]) && packets == first + Flatten(Spans(ss + [s], seqNo))
  {
    var last := Packets(s.sent, NumberAfter(ss, seqNo));
    SpansAppend(ss, s, seqNo);
    FlattenAppend(Spans(ss, seqNo), last);
    Associative(first, Flatten(Spans(ss, seqNo)), last);
  }

  lemma {:induction false} SpansDecode(ss: seq<Session<Wire>>, seqNo: uint8)
    requires AllLawful(ss)
    ensures forall i :: 0 <= i < |ss| ==> DecodedAll(Spans(ss, seqNo)[i]) == Flatten(ss[i].sent)
  {
    if ss != [] {
      DecodedPackets(ss[0].sent, seqNo);
      SpansDecode(ss[1..], Numbered(seqNo, |ss[0].sent|));
    }
  }

  lemma AccountedSends(s: Session<Wire>, role: Role, images: seq<Wire>)
    requires Accounted(s, role, images)
    ensures multiset(Flatten(s.sent)) <= multiset(s.carried) + multiset(images)
    ensures role == Server ==> multiset(Flatten(s.sent)) <= multiset(images)
  {
    assert multiset(Flatten(s.sent)) <= multiset(s.carried) + multiset(s.inserted);
  }

  /** What may be told of the packets of one connection. */
  ghost predicate Isolates(packets: seq<seq<uint8>>, carried: seq<Wire>, role: Role, images: seq<Wire>) {
    && multiset(DecodedAll(packets)) <= multiset(carried) + multiset(images)
    && (role == Server ==> multiset(DecodedAll(packets)) <= multiset(images))
  }

  /** Each connection by itself: its packets decode to frames read during it and, for a client, to
      what its queue held when it came up. */
  lemma EachIsIsolated(l: Line, role: Role, log: Log, seqNo: uint8)
    requires AllAccounted(l, role, log) && AllLawful(Connections(l))
    ensures forall i :: 0 <= i < |Connections(l)| ==>
              Isolates(Spans(Connections(l), seqNo)[i], Connections(l)[i].carried, role, ReadDuring(log)[i])
  {
    var ss := Connections(l);
    SpansDecode(ss, seqNo);
    forall i | 0 <= i < |ss| ensures Isolates(Spans(ss, seqNo)[i], ss[i].carried, role, ReadDuring(log)[i]) {
      assert Accounted(ss[i], role, ReadDuring(log)[i]);
      AccountedSends(ss[i], role, ReadDuring(log)[i]);
    }
  }

  /** The packets of all connections are numbered consecutively. */
  lemma {:induction false} SpansAreNumbered(first: seq<seq<uint8>>, ss: seq<Session<Wire>>, seqNo: uint8)
    requires AllLawful(ss)
    ensures NumberedFrom(first + Flatten(Spans(ss, seqNo)), NumberAfter(ss, seqNo), first, seqNo)
    decreases |ss|
  {
    if ss == [] {
      assert first + [] == first;
    } else {
      var sent, next := Packets(ss[0].sent, seqNo), Numbered(seqNo, |ss[0].sent|);
      SentIsNumbered(first + sent, next, first, seqNo, ss[0].sent);
      SpansAreNumbered(first + sent, ss[1..], next);
      Associative(first, sent, Flatten(Spans(ss[1..], next)));
      NumberedOn(first, seqNo, first + sent, next,
                 first + sent + Flatten(Spans(ss[1..], next)), NumberAfter(ss, seqNo));
    }
  }

  lemma ConnectionsAreNumbered(first: seq<seq<uint8>>, seqNo: uint8, l: Line, before: seq<seq<uint8>>,
                               firstNo: uint8, packets: seq<seq<uint8>>, next: uint8)
    requires AllLawful(l.past) && before == first + Flatten(Spans(l.past, seqNo))
    requires firstNo == NumberAfter(l.past, seqNo) && SentSince(packets, next, before, firstNo, l.session.sent)
    ensures NumberedFrom(packets, next, first, seqNo)
  {
    SpansAreNumbered(first, l.past, seqNo);
    SentIsNumbered(packets, next, before, firstNo, l.session.sent);
    NumberedOn(first, seqNo, before, firstNo, packets, next);
  }

  // ----- Nothing is missing

  /** What a connection starts with: a server's with nothing, a client's with what the one before
      left. */
  predicate Succeeds(ss: seq<Session<Wire>>, i: nat, role: Role)
    requires 0 < i < |ss|
  {
    ss[i].carried == if role == Server then [] else ss[i - 1].queue
  }

  ghost predicate Chained(ss: seq<Session<Wire>>, role: Role) {
    forall i :: 0 < i < |ss| ==> Succeeds(ss, i, role)
  }

  lemma SameChain(past: seq<Session<Wire>>, s: Session<Wire>, s': Session<Wire>, role: Role)
    requires Chained(past + [s], role) && s'.carried == s.carried
    ensures Chained(past + [s'], role)
  {
    forall i | 0 < i < |past| + 1 ensures Succeeds(past + [s'], i, role) {
      assert Succeeds(past + [s], i, role);
    }
  }

  lemma LongerChain(ss: seq<Session<Wire>>, s: Session<Wire>, role: Role)
    requires Chained(ss, role) && ss != [] && s.carried == if role == Server then [] else ss[|ss| - 1].queue
    ensures Chained(ss + [s], role)
  {
    forall i | 0 < i < |ss| + 1 ensures Succeeds(ss + [s], i, role) {
      assert i < |ss| ==> Succeeds(ss, i, role);
    }
  }

  lemma NextIsChained(l: Line, call: Call, role: Role, r: Packing.Rules<Wire>)
    requires Chained(Connections(l), role) && Possible(l.session.connected, call)
    ensures Chained(Connections(Next(l, call, role, r)), role)
  {
    var l' := Next(l, call, role, r);
    if call.Establish? && call.ok {
      LongerChain(Connections(l), l'.session, role);
    } else {
      SameChain(l.past, l.session, l'.session, role);
    }
  }

  lemma {:induction false} RunIsChained(l: Line, calls: seq<Call>, role: Role, r: Packing.Rules<Wire>)
    requires Chained(Connections(l), role) && Runs(l, calls, role, r)
    ensures Chained(Connections(Run(l, calls, role, r)), role)
    decreases |calls|
  {
    if calls != [] {
      NextIsChained(l, calls[0], role, r);
      RunIsChained(Next(l, calls[0], role, r), calls[1..], role, r);
    }
  }

  /** Every read finds a free frame. */
  predicate Ample(l: Line, calls: seq<Call>, role: Role, r: Packing.Rules<Wire>)
    requires Runs(l, calls, role, r)
    decreases |calls|
  {
    calls == [] ||
    ((calls[0].FromCan? ==> l.room != Room(0)) && Ample(Next(l, calls[0], role, r), calls[1..], role, r))
  }

  function Reads(calls: seq<Call>): nat {
    if calls == [] then 0 else (if calls[0].FromCan? then 1 else 0) + Reads(calls[1..])
  }

  /** Room for all reads at the start is enough. */
  lemma {:induction false} EnoughIsAmple(l: Line, calls: seq<Call>, role: Role, r: Packing.Rules<Wire>)
    requires Runs(l, calls, role, r) && Enough(l.room, Reads(calls))
    ensures Ample(l, calls, role, r)
    decreases |calls|
  {
    if calls != [] {
      EnoughIsAmple(Next(l, calls[0], role, r), calls[1..], role, r);
    }
  }

  /** The session has inserted what was read during the connection and lost none of it. */
  ghost predicate Exact(s: Session<Wire>, images: seq<Wire>) { s.inserted == images && s.lost == [] }

  ghost predicate AllExact(l: Line, log: Log) {
    && l.session.connected == log.connected
    && Exact(l.session, log.images)
    && |l.past| == |log.past|
    && forall i :: 0 <= i < |l.past| ==> Exact(l.past[i], log.past[i])
  }

  lemma {:induction false} RunIsExact(l: Line, calls: seq<Call>, role: Role, r: Packing.Rules<Wire>, log: Log)
    requires AllExact(l, log) && Runs(l, calls, role, r) && Ample(l, calls, role, r) && Feasible(log, calls)
    ensures AllExact(Run(l, calls, role, r), LogOf(log, calls))
    decreases |calls|
  {
    if calls != [] {
      assert AllExact(Next(l, calls[0], role, r), Noted(log, calls[0]));
      RunIsExact(Next(l, calls[0], role, r), calls[1..], role, r, Noted(log, calls[0]));
    }
  }

  /** Everything read during the connection, and what its queue held when it came up, was sent or is
      still queued when it ends. */
  ghost predicate Completes(packets: seq<seq<uint8>>, s: Session<Wire>, images: seq<Wire>) {
    multiset(DecodedAll(packets)) + multiset(s.queue) == multiset(s.carried) + multiset(images)
  }

  lemma EachIsComplete(l: Line, role: Role, log: Log, seqNo: uint8)
    requires AllAccounted(l, role, log) && AllExact(l, log) && AllLawful(Connections(l))
    ensures forall i :: 0 <= i < |Connections(l)| ==>
              Completes(Spans(Connections(l), seqNo)[i], Connections(l)[i], ReadDuring(log)[i])
  {
    var ss := Connections(l);
    SpansDecode(ss, seqNo);
    forall i | 0 <= i < |ss| ensures Completes(Spans(ss, seqNo)[i], ss[i], ReadDuring(log)[i]) {
      assert Accounted(ss[i], role, ReadDuring(log)[i]) && Exact(ss[i], ReadDuring(log)[i]);
      assert multiset(Flatten(ss[i].sent)) + multiset([]) == multiset(Flatten(ss[i].sent));
    }
  }

  /** What is promised of the packets of all connections: each is isolated, starts where the one
      before it ended, and, if `exact`, nothing is missing from it. */
  ghost predicate AllTold(l: Line, role: Role, log: Log, seqNo: uint8, exact: bool) {
    var ss, read := Connections(l), ReadDuring(log);
    && AllLawful(ss) && |read| == |ss| && Chained(ss, role)
    && (forall i :: 0 <= i < |ss| ==> Isolates(Spans(ss, seqNo)[i], ss[i].carried, role, read[i]))
    && (exact ==> forall i :: 0 <= i < |ss| ==> Completes(Spans(ss, seqNo)[i], ss[i], read[i]))
  }

  /** The machine when it starts with a session, and what is known then. */
  function FirstLine(s: Session<Wire>, room: Capacity): Line { Line(s, room, []) }

  function FirstLog(s: Session<Wire>): Log { Log(s.connected, s.inserted, []) }

  lemma FeasibleRuns(s: Session<Wire>, room: Capacity, calls: seq<Call>, role: Role, r: Packing.Rules<Wire>)
    requires Orderly(s, role) && Feasible(FirstLog(s), calls)
    ensures Runs(FirstLine(s, room), calls, role, r)
    ensures Orderly(Run(FirstLine(s, room), calls, role, r).session, role)
  {
    RunIsAccounted(FirstLine(s, room), calls, role, r, FirstLog(s));
  }

  lemma RunIsTold(s: Session<Wire>, room: Capacity, calls: seq<Call>, role: Role, r: Packing.Rules<Wire>, seqNo: uint8)
    requires Orderly(s, role) && Feasible(FirstLog(s), calls)
    requires Runs(FirstLine(s, room), calls, role, r)
    requires AllLawful(Connections(Run(FirstLine(s, room), calls, role, r)))
    ensures AllTold(Run(FirstLine(s, room), calls, role, r), role, LogOf(FirstLog(s), calls), seqNo,
                    Ample(FirstLine(s, room), calls, role, r) && s.lost == [])
  {
    var l, log := FirstLine(s, room), FirstLog(s);
    var l', log' := Run(l, calls, role, r), LogOf(log, calls);
    RunIsAccounted(l, calls, role, r, log);
    EachIsIsolated(l', role, log', seqNo);
    RunIsChained(l, calls, role, r);
    if Ample(l, calls, role, r) && s.lost == [] {
      RunIsExact(l, calls, role, r, log);
      EachIsComplete(l', role, log', seqNo);
    }
  }
}
