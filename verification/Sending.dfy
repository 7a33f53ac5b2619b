/**
 The sending half of the tunnel as a machine: reads from the CAN socket, time passing and
 expiries of the transmit timer act on a queue with its deadlines, on the room of the frame
 buffer and on the batches sent. `Service` proves that the objects are this machine; here is
 what it promises, as conditions on the calls.
 */
module Sending {
  import opened Can
  import opened Codec
  import opened Inbox
  import opened Packing
  import opened Pipeline
  import opened Receiver
  import opened Sequences
  import D = Deadlines
  import Timers

  /** A read, time passing, an expiry; `transmitted` is whether the socket took the packet. */
  datatype Call = FromCan(read: Read) | Elapse(ns: nat) | Expire(transmitted: bool)

  datatype Sender = Sender(net: D.Net<Wire>, room: Capacity, batches: seq<seq<Wire>>)

  function Start(plan: D.Plan<Wire>, room: Capacity): Sender { Sender(D.Start(plan), room, []) }

  /** The socket keeps its promise about complete frames, the clock does not pass an expiry. */
  predicate Possible(s: Sender, call: Call) {
    match call
    case FromCan(read) => read.Sane()
    case Elapse(ns) => D.Possible(s.net, D.Elapse(ns))
    case Expire(_) => D.Possible(s.net, D.Expire)
  }

  /** The queue from which a frame has been taken for a read. */
  function Vacated(s: Sender, plan: D.Plan<Wire>, slack: nat): D.Net<Wire>
    requires !Stuck(s.net.queue, s.room)
  {
    if s.room == Room(0) then D.Step(s.net, D.Evict, plan, slack) else s.net
  }

  function Next(s: Sender, call: Call, plan: D.Plan<Wire>, slack: nat): Sender
    requires Possible(s, call)
  {
    match call
    case FromCan(read) =>
      if Stuck(s.net.queue, s.room) then s
      else if read.Complete() then
        Sender(D.Step(Vacated(s, plan, slack), D.Arrive(read.Image()), plan, slack), Used(s.room, 1), s.batches)
      else
        var room := if read.Failed? then Freed(Used(s.room, 1), 1) else Used(s.room, 1);
        Sender(Vacated(s, plan, slack), room, s.batches)
    case Elapse(ns) => s.(net := D.Step(s.net, D.Elapse(ns), plan, slack))
    case Expire(_) =>
      var net := D.Step(s.net, D.Expire, plan, slack);
      if s.net.queue == [] then s.(net := net)
      else
        var batch := Sent(s.net.queue, plan.rules);
        Sender(net, Freed(s.room, |batch|), s.batches + [batch])
  }

  predicate Runs(s: Sender, calls: seq<Call>, plan: D.Plan<Wire>, slack: nat)
    decreases |calls|
  {
    calls == [] || (Possible(s, calls[0]) && Runs(Next(s, calls[0], plan, slack), calls[1..], plan, slack))
  }

  function Run(s: Sender, calls: seq<Call>, plan: D.Plan<Wire>, slack: nat): Sender
    requires Runs(s, calls, plan, slack)
    decreases |calls|
  {
    if calls == [] then s else Run(Next(s, calls[0], plan, slack), calls[1..], plan, slack)
  }

  // ----- Conditions on the calls

  predicate Sane(calls: seq<Call>) {
    forall i :: 0 <= i < |calls| && calls[i].FromCan? ==> calls[i].read.Sane()
  }

  lemma {:induction false} RunsAreSane(s: Sender, calls: seq<Call>, plan: D.Plan<Wire>, slack: nat)
    requires Runs(s, calls, plan, slack)
    ensures Sane(calls)
    decreases |calls|
  {
    if calls != [] {
      RunsAreSane(Next(s, calls[0], plan, slack), calls[1..], plan, slack);
      forall i | 0 <= i < |calls| && calls[i].FromCan? ensures calls[i].read.Sane() {
        assert i > 0 ==> calls[i] == calls[1..][i - 1];
      }
    }
  }

  function Image(call: Call): seq<Wire>
    requires call.FromCan? ==> call.read.Sane()
  {
    if call.FromCan? && call.read.Complete() then [call.read.Image()] else []
  }

  /** The frames read from the CAN bus. */
  function Images(calls: seq<Call>): seq<Wire>
    requires Sane(calls)
  {
    if calls == [] then [] else Image(calls[0]) + Images(calls[1..])
  }

  /** Every read finds a free frame. */
  predicate Lossless(s: Sender, calls: seq<Call>, plan: D.Plan<Wire>, slack: nat)
    requires Runs(s, calls, plan, slack)
    decreases |calls|
  {
    calls == [] ||
    ((calls[0].FromCan? ==> s.room != Room(0)) && Lossless(Next(s, calls[0], plan, slack), calls[1..], plan, slack))
  }

  function Reads(calls: seq<Call>): nat {
    if calls == [] then 0 else (if calls[0].FromCan? then 1 else 0) + Reads(calls[1..])
  }

  /** Enough room for all reads is more than enough: what is sent makes room again. */
  lemma {:induction false} RoomyIsLossless(s: Sender, calls: seq<Call>, plan: D.Plan<Wire>, slack: nat)
    requires Runs(s, calls, plan, slack) && Enough(s.room, Reads(calls))
    ensures Lossless(s, calls, plan, slack)
    decreases |calls|
  {
    if calls != [] {
      RoomyIsLossless(Next(s, calls[0], plan, slack), calls[1..], plan, slack);
    }
  }

  /** What a call does to the queue: a complete read is put, an expiry flushes a queue that is not
      empty. */
  function Effect(s: Sender, call: Call): seq<Event<Wire>>
    requires Possible(s, call)
  {
    match call
    case FromCan(read) => if read.Complete() then [Put(read.Image())] else []
    case Elapse(_) => []
    case Expire(_) => if s.net.queue == [] then [] else [Flush]
  }

  function Events(s: Sender, calls: seq<Call>, plan: D.Plan<Wire>, slack: nat): seq<Event<Wire>>
    requires Runs(s, calls, plan, slack)
    decreases |calls|
  {
    if calls == [] then []
    else Effect(s, calls[0]) + Events(Next(s, calls[0], plan, slack), calls[1..], plan, slack)
  }

  /** Whole microseconds, or a microsecond of tolerance and no read in the last one before an
      expiry. */
  predicate OnTime(s: Sender, calls: seq<Call>, plan: D.Plan<Wire>, slack: nat)
    requires Runs(s, calls, plan, slack)
    decreases |calls|
  {
    calls == [] ||
    (&& (match calls[0]
         case FromCan(read) => read.Complete() ==> D.Timely(s.net, D.Arrive(read.Image()), slack)
         case Elapse(ns) => D.Timely(s.net, D.Elapse(ns), slack)
         case Expire(_) => D.Timely(s.net, D.Expire, slack))
     && OnTime(Next(s, calls[0], plan, slack), calls[1..], plan, slack))
  }

  // ----- What the machine promises

  predicate Same(s: Sender, p: Pipe<Wire>) { p.queue == s.net.queue && p.batches == s.batches }

  lemma NextIsPipe(s: Sender, call: Call, plan: D.Plan<Wire>, slack: nat, p: Pipe<Wire>)
    requires Possible(s, call) && (call.FromCan? ==> s.room != Room(0)) && Same(s, p)
    ensures Same(Next(s, call, plan, slack), Packing.Run(p, Effect(s, call), plan.rules, plan.reserve))
    ensures Inserted(Effect(s, call)) == Image(call)
  {
    var e := Effect(s, call);
    if e != [] {
      assert e[1..] == [];
    }
  }

  /** If every read finds a free frame, queue and batches are those of the abstract queue, and
      what is put there are the frames read. */
  lemma {:induction false} RunIsPipe(s: Sender, calls: seq<Call>, plan: D.Plan<Wire>, slack: nat, p: Pipe<Wire>)
    requires Runs(s, calls, plan, slack) && Lossless(s, calls, plan, slack) && Sane(calls)
    requires Same(s, p)
    ensures Same(Run(s, calls, plan, slack), Packing.Run(p, Events(s, calls, plan, slack), plan.rules, plan.reserve))
    ensures Inserted(Events(s, calls, plan, slack)) == Images(calls)
    decreases |calls|
  {
    if calls != [] {
      var s', e := Next(s, calls[0], plan, slack), Effect(s, calls[0]);
      var rest := Events(s', calls[1..], plan, slack);
      NextIsPipe(s, calls[0], plan, slack, p);
      RunAppend(p, e, rest, plan.rules, plan.reserve);
      InsertedAppend(e, rest);
      RunIsPipe(s', calls[1..], plan, slack, Packing.Run(p, e, plan.rules, plan.reserve));
    }
  }

  /** What every run keeps, losses included: the queue and what was sent are valid frames, and each
      batch keeps to the limit. */
  ghost predicate Wellformed(s: Sender, r: Rules<Wire>) {
    && AllValid(s.net.queue) && AllValid(Flatten(s.batches))
    && Fitting(s.batches, r) && Small(s.batches)
  }

  lemma NextIsWellformed(s: Sender, call: Call, plan: D.Plan<Wire>, slack: nat)
    requires Framed(plan.rules) && Wellformed(s, plan.rules) && Possible(s, call)
    ensures Wellformed(Next(s, call, plan, slack), plan.rules)
  {
    if call.Expire? && s.net.queue != [] {
      SentIsWellformed(s.net.queue, s.batches, plan.rules);
    }
  }

  lemma SentIsWellformed(q: seq<Wire>, batches: seq<seq<Wire>>, r: Rules<Wire>)
    requires Framed(r) && AllValid(q) && AllValid(Flatten(batches)) && Fitting(batches, r) && Small(batches)
    ensures var batches' := batches + [Sent(q, r)];
            AllValid(Left(q, r)) && AllValid(Flatten(batches')) && Fitting(batches', r) && Small(batches')
  {
    FlushIsValid(q, r);
    SentFits(q, r);
    ValidAppend(batches, Sent(q, r));
  }

  lemma {:induction false} RunIsWellformed(s: Sender, calls: seq<Call>, plan: D.Plan<Wire>, slack: nat)
    requires Framed(plan.rules) && Wellformed(s, plan.rules) && Runs(s, calls, plan, slack)
    ensures Wellformed(Run(s, calls, plan, slack), plan.rules)
    decreases |calls|
  {
    if calls != [] {
      NextIsWellformed(s, calls[0], plan, slack);
      RunIsWellformed(Next(s, calls[0], plan, slack), calls[1..], plan, slack);
    }
  }

  /** First in, first out: with sorting off, if every read finds a free frame and the flushes
      that the size threshold asks for come before the next read, then the packets decode to
      the frames read, in the order read, up to those still queued. */
  lemma ServedInOrder(calls: seq<Call>, plan: D.Plan<Wire>, slack: nat, limit: uint16, room: Capacity, seqNo: uint8)
    requires plan.rules == WireRules(false, limit) && plan.reserve == FRAME_BASE_SIZE && PACKET_BASE_SIZE <= limit
    requires var s := Start(plan, room);
             && Runs(s, calls, plan, slack) && Lossless(s, calls, plan, slack)
             && Prompt(Idle, Events(s, calls, plan, slack), plan.rules, plan.reserve)
    ensures Sane(calls)
    ensures var s := Run(Start(plan, room), calls, plan, slack);
            && Small(s.batches)
            && DecodedAll(Packets(s.batches, seqNo)) + s.net.queue == Images(calls)
  {
    var s := Start(plan, room);
    RunsAreSane(s, calls, plan, slack);
    RunIsPipe(s, calls, plan, slack, Idle);
    ImagesAreValid(calls);
    TunnelIsFifo(Events(s, calls, plan, slack), limit, seqNo);
  }

  /** And exactly when: at the program's packet sizes, if every read finds a free frame and all
      frames read differ, the packets decode to the frames read in the order read if and only if
      no flush leaves more than one frame. */
  lemma ServedInOrderIff(calls: seq<Call>, plan: D.Plan<Wire>, slack: nat, limit: uint16, room: Capacity, seqNo: uint8)
    requires plan.rules == WireRules(false, limit) && plan.reserve == FRAME_BASE_SIZE && 138 <= limit
    requires Runs(Start(plan, room), calls, plan, slack) && Lossless(Start(plan, room), calls, plan, slack)
    requires Sane(calls) && Distinct(Images(calls))
    ensures var s := Run(Start(plan, room), calls, plan, slack);
            && Small(s.batches)
            && (DecodedAll(Packets(s.batches, seqNo)) + s.net.queue == Images(calls)
                <==> Straight(Idle, Events(Start(plan, room), calls, plan, slack), plan.rules, plan.reserve))
  {
    var s := Start(plan, room);
    var es := Events(s, calls, plan, slack);
    RulesAreFramed(false, limit);
    RunIsWellformed(s, calls, plan, slack);
    DecodedPackets(Run(s, calls, plan, slack).batches, seqNo);
    RunIsPipe(s, calls, plan, slack, Idle);
    EveryFrameFits(Images(calls), false, limit);
    assert [] + Images(calls) == Images(calls);
    FifoIff(Idle, es, plan.rules, plan.reserve, []);
  }

  /** End to end, whatever was read, lost or sent late: the receiving queue becomes the bounded
      append of everything sent, and the receiver never leaves its arrays. */
  lemma SentIsAppended(calls: seq<Call>, plan: D.Plan<Wire>, slack: nat, sort: bool, limit: uint16, room: Capacity,
                       seqNo: uint8, box: Box)
    requires plan.rules == WireRules(sort, limit) && PACKET_BASE_SIZE <= limit <= RECEIVE_BUFFER_SIZE
    requires Runs(Start(plan, room), calls, plan, slack)
    ensures var s := Run(Start(plan, room), calls, plan, slack);
            && Small(s.batches)
            && Unpacked(box, Packets(s.batches, seqNo)) == Appended(box, Flatten(s.batches))
            && !GoesAstray(box, Packets(s.batches, seqNo))
  {
    RulesAreFramed(sort, limit);
    RunIsWellformed(Start(plan, room), calls, plan, slack);
    UnpackedAppends(box, Run(Start(plan, room), calls, plan, slack).batches, plan.rules, seqNo);
  }

  /** End to end and in order: without losses and late flushes a receiving queue with room for everything, followed by
      what is still queued here, is what it was followed by the frames read. */
  lemma ServedAndDelivered(calls: seq<Call>, plan: D.Plan<Wire>, slack: nat, limit: uint16, room: Capacity,
                           seqNo: uint8, box: Box)
    requires plan.rules == WireRules(false, limit) && plan.reserve == FRAME_BASE_SIZE
    requires PACKET_BASE_SIZE <= limit <= RECEIVE_BUFFER_SIZE
    requires var s := Start(plan, room);
             && Runs(s, calls, plan, slack) && Lossless(s, calls, plan, slack)
             && Prompt(Idle, Events(s, calls, plan, slack), plan.rules, plan.reserve)
    requires Sane(calls) && Enough(box.c, |Images(calls)|)
    ensures var s := Run(Start(plan, room), calls, plan, slack);
            && Small(s.batches)
            && Unpacked(box, Packets(s.batches, seqNo)).q + s.net.queue == box.q + Images(calls)
  {
    var s := Start(plan, room);
    RunIsPipe(s, calls, plan, slack, Idle);
    ImagesAreValid(calls);
    TunnelDeliversInOrder(Events(s, calls, plan, slack), limit, seqNo, box);
  }

  lemma {:induction false} ImagesAreValid(calls: seq<Call>)
    requires Sane(calls)
    ensures AllValid(Images(calls))
  {
    if calls != [] {
      ImagesAreValid(calls[1..]);
    }
  }

  lemma NextKeepsInTime(s: Sender, call: Call, plan: D.Plan<Wire>, slack: nat)
    requires D.InTime(s.net, plan, slack) && Possible(s, call)
    requires match call
             case FromCan(read) => read.Complete() ==> D.Timely(s.net, D.Arrive(read.Image()), slack)
             case Elapse(ns) => D.Timely(s.net, D.Elapse(ns), slack)
             case Expire(_) => D.Timely(s.net, D.Expire, slack)
    ensures D.InTime(Next(s, call, plan, slack).net, plan, slack)
  {
    match call
    case FromCan(read) =>
      if !Stuck(s.net.queue, s.room) {
        var n := Vacated(s, plan, slack);
        if read.Complete() {
          D.StepKeepsInTime(n, D.Arrive(read.Image()), plan, slack);
        }
      }
    case Elapse(ns) => D.StepKeepsInTime(s.net, D.Elapse(ns), plan, slack);
    case Expire(_) => D.StepKeepsInTime(s.net, D.Expire, plan, slack);
  }

  /** No frame is kept past its deadline: whatever is read, lost or sent, a queued frame has an
      armed timer, and it is offered to a flush when its timeout has passed. */
  lemma {:induction false} ServedInTime(s: Sender, calls: seq<Call>, plan: D.Plan<Wire>, slack: nat)
    requires D.InTime(s.net, plan, slack) && Runs(s, calls, plan, slack) && OnTime(s, calls, plan, slack)
    ensures D.InTime(Run(s, calls, plan, slack).net, plan, slack)
    decreases |calls|
  {
    if calls != [] {
      NextKeepsInTime(s, calls[0], plan, slack);
      ServedInTime(Next(s, calls[0], plan, slack), calls[1..], plan, slack);
    }
  }

  // ----- Exactly the runs that keep all deadlines

  predicate HarmlessCall(s: Sender, call: Call, plan: D.Plan<Wire>, slack: nat)
    requires Possible(s, call)
  {
    call.FromCan? && call.read.Complete() && !Stuck(s.net.queue, s.room) ==>
      D.Harmless(Vacated(s, plan, slack), D.Arrive(call.read.Image()), plan)
  }

  predicate AllHarmless(s: Sender, calls: seq<Call>, plan: D.Plan<Wire>, slack: nat)
    requires Runs(s, calls, plan, slack)
    decreases |calls|
  {
    calls == [] ||
    (HarmlessCall(s, calls[0], plan, slack) && AllHarmless(Next(s, calls[0], plan, slack), calls[1..], plan, slack))
  }

  ghost predicate AlwaysInTime(s: Sender, calls: seq<Call>, plan: D.Plan<Wire>, slack: nat)
    requires Runs(s, calls, plan, slack)
    decreases |calls|
  {
    D.InTime(s.net, plan, slack) &&
    (calls == [] || AlwaysInTime(Next(s, calls[0], plan, slack), calls[1..], plan, slack))
  }

  lemma NextKeepsInTimeIff(s: Sender, call: Call, plan: D.Plan<Wire>, slack: nat)
    requires D.InTime(s.net, plan, slack) && Possible(s, call) && slack >= 999
    ensures D.InTime(Next(s, call, plan, slack).net, plan, slack) <==> HarmlessCall(s, call, plan, slack)
  {
    match call
    case FromCan(read) =>
      if !Stuck(s.net.queue, s.room) {
        var n := Vacated(s, plan, slack);
        if s.room == Room(0) {
          D.StepKeepsInTimeIff(s.net, D.Evict, plan, slack);
        }
        if read.Complete() {
          D.StepKeepsInTimeIff(n, D.Arrive(read.Image()), plan, slack);
        }
      }
    case Elapse(ns) => D.StepKeepsInTimeIff(s.net, D.Elapse(ns), plan, slack);
    case Expire(_) => D.StepKeepsInTimeIff(s.net, D.Expire, plan, slack);
  }

  /** All deadlines hold in all states of a run, whatever its times, if and only if no read in the
      last microsecond before an expiry starts the timer anew while an earlier frame is due. */
  lemma {:induction false} AlwaysInTimeIff(s: Sender, calls: seq<Call>, plan: D.Plan<Wire>, slack: nat)
    requires D.InTime(s.net, plan, slack) && Runs(s, calls, plan, slack) && slack >= 999
    ensures AlwaysInTime(s, calls, plan, slack) <==> AllHarmless(s, calls, plan, slack)
    decreases |calls|
  {
    if calls != [] {
      NextKeepsInTimeIff(s, calls[0], plan, slack);
      if HarmlessCall(s, calls[0], plan, slack) {
        AlwaysInTimeIff(Next(s, calls[0], plan, slack), calls[1..], plan, slack);
      }
    }
  }

  // ----- The table and the interval

  /** No deadline lies further ahead than its frame may wait, and below a second the timer's
      interval is the general timeout. */
  ghost predicate Steady(s: Sender, plan: D.Plan<Wire>, slack: nat) {
    && D.Fair(s.net, plan, slack)
    && (plan.timeout < 1_000_000 ==> s.net.timer.interval == 1000 * Timers.OrOne(plan.timeout))
  }

  lemma EventIsSteady(s: Sender, e: D.Event<Wire>, plan: D.Plan<Wire>, slack: nat, s': Sender)
    requires Steady(s, plan, slack) && D.Possible(s.net, e) && s'.net == D.Step(s.net, e, plan, slack)
    ensures Steady(s', plan, slack)
  {
    D.StepKeepsFair(s.net, e, plan, slack);
    if plan.timeout < 1_000_000 {
      D.StepKeepsInterval(s.net, e, plan, slack);
    }
  }

  lemma NextIsSteady(s: Sender, call: Call, plan: D.Plan<Wire>, slack: nat)
    requires Steady(s, plan, slack) && Possible(s, call)
    ensures Steady(Next(s, call, plan, slack), plan, slack)
  {
    var s' := Next(s, call, plan, slack);
    match call
    case FromCan(read) =>
      if !Stuck(s.net.queue, s.room) {
        var v := s.(net := Vacated(s, plan, slack));
        if s.room == Room(0) {
          EventIsSteady(s, D.Evict, plan, slack, v);
        }
        if read.Complete() {
          EventIsSteady(v, D.Arrive(read.Image()), plan, slack, s');
        }
      }
    case Elapse(ns) => EventIsSteady(s, D.Elapse(ns), plan, slack, s');
    case Expire(_) => EventIsSteady(s, D.Expire, plan, slack, s');
  }

  lemma {:induction false} RunIsSteady(s: Sender, calls: seq<Call>, plan: D.Plan<Wire>, slack: nat)
    requires Steady(s, plan, slack) && Runs(s, calls, plan, slack)
    ensures Steady(Run(s, calls, plan, slack), plan, slack)
    decreases |calls|
  {
    if calls != [] {
      NextIsSteady(s, calls[0], plan, slack);
      RunIsSteady(Next(s, calls[0], plan, slack), calls[1..], plan, slack);
    }
  }
}
