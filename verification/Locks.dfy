/**
 The frame buffer's three locks. Any number of threads run sequences of frame buffer
 operations; an operation is the list of its lock actions and of its accesses to the lists that
 the locks guard, calls between operations written out. A single acquisition blocks; acquiring
 several at once (`std::lock`) takes all of them or none. The locks are recursive.
 */
module Locks {

  datatype Lock = PoolLock | BufferLock | IntermediateLock

  /** `Access` is any reading or changing of the lists that the locks guard, with their sizes. */
  datatype Action = Acquire(locks: set<Lock>) | Release(lock: Lock) | Access(lists: set<Lock>)

  /** How often a thread holds each lock. */
  datatype Held = Held(pool: nat, buffer: nat, inter: nat) {
    function Count(l: Lock): nat {
      match l
      case PoolLock => pool
      case BufferLock => buffer
      case IntermediateLock => inter
    }

    predicate Holds(l: Lock) { Count(l) > 0 }

    function Plus(locks: set<Lock>): Held {
      Held(pool + (if PoolLock in locks then 1 else 0),
           buffer + (if BufferLock in locks then 1 else 0),
           inter + (if IntermediateLock in locks then 1 else 0))
    }

    /** Releasing a lock that is not held, which no operation does, changes nothing. */
    function Minus(l: Lock): Held {
      if !Holds(l) then this
      else
        match l
        case PoolLock => this.(pool := pool - 1)
        case BufferLock => this.(buffer := buffer - 1)
        case IntermediateLock => this.(inter := inter - 1)
    }
  }

  const Nothing := Held(0, 0, 0)

  datatype Thread = Thread(held: Held, script: seq<Action>)

  // ----- The operations

  function One(l: Lock): seq<Action> { [Acquire({l})] + [Access({l})] + [Release(l)] }

  function GrowPool(): seq<Action> { One(PoolLock) }

  /** requestFrame: the pool may grow, or a frame is taken off the queue's end. */
  function RequestFrame(grows: bool, evicts: bool): seq<Action> {
    [Acquire({PoolLock})]
    + ([Access({PoolLock})] + (if grows then GrowPool() else []) + (if evicts then Evict() else [Access({PoolLock})]))
    + [Release(PoolLock)]
  }

  function Evict(): seq<Action> {
    [Acquire({BufferLock})] + One(BufferLock) + [Release(BufferLock)]
  }

  function InsertFramePool(): seq<Action> { One(PoolLock) }

  /** insertFrame, returnFrame, requestBufferFront, requestBufferBack, getFrameBufferSize */
  function QueueAccess(): seq<Action> { One(BufferLock) }

  function Both(k: Lock, l: Lock): seq<Action> {
    [Acquire({k, l})] + [Access({k, l})] + [Release(k), Release(l)]
  }

  function SwapBuffers(): seq<Action> {
    Both(IntermediateLock, BufferLock)
  }

  function SortIntermediateBuffer(): seq<Action> { One(IntermediateLock) }

  function MergeIntermediateBuffer(): seq<Action> {
    Both(IntermediateLock, PoolLock)
  }

  function Times(n: nat, script: seq<Action>): seq<Action> {
    if n == 0 then [] else script + Times(n - 1, script)
  }

  /** returnIntermediateBuffer with `n` frames to return */
  function ReturnIntermediateBuffer(n: nat): seq<Action> {
    [Acquire({BufferLock, IntermediateLock})] + Times(n, [Access({IntermediateLock})] + QueueAccess())
    + [Release(BufferLock), Release(IntermediateLock)]
  }

  /** The intermediate list stays locked while the packet is built and sent. */
  function SendPacket(overflows: bool, left: nat): seq<Action> {
    [Acquire({IntermediateLock})]
    + ([Access({IntermediateLock})] + (if overflows then ReturnIntermediateBuffer(left) else []))
    + [Release(IntermediateLock)]
  }

  function PrepareBuffer(sort: bool, overflows: bool, left: nat): seq<Action> {
    SwapBuffers() + (if sort then SortIntermediateBuffer() else [])
    + SendPacket(overflows, left) + MergeIntermediateBuffer()
  }

  function Reset(): seq<Action> {
    [Acquire({PoolLock, BufferLock, IntermediateLock})] + [Access({PoolLock, BufferLock, IntermediateLock})]
    + [Release(IntermediateLock), Release(BufferLock), Release(PoolLock)]
  }

  datatype Operation =
    | Request(grows: bool, evicts: bool)
    | ToPool
    | Queue
    | Flush(sort: bool, overflows: bool, left: nat)
    | Clear

  function Script(op: Operation): seq<Action> {
    match op
    case Request(grows, evicts) => RequestFrame(grows, evicts)
    case ToPool => InsertFramePool()
    case Queue => QueueAccess()
    case Flush(sort, overflows, left) => PrepareBuffer(sort, overflows, left)
    case Clear => Reset()
  }

  function Program(ops: seq<Operation>): seq<Action> {
    if ops == [] then [] else Script(ops[0]) + Program(ops[1..])
  }

  /** The lists that a script accesses. */
  function Touched(script: seq<Action>): set<Lock> {
    if script == [] then {}
    else (if script[0].Access? then script[0].lists else {}) + Touched(script[1..])
  }

  lemma {:induction false} TouchedConcat(a: seq<Action>, b: seq<Action>)
    ensures Touched(a + b) == Touched(a) + Touched(b)
  {
    if a == [] {
      assert a + b == b;
    } else {
      assert (a + b)[1..] == a[1..] + b;
      TouchedConcat(a[1..], b);
    }
  }

  lemma {:induction false} ReleasesTouchNothing(releases: seq<Action>)
    requires forall i :: 0 <= i < |releases| ==> releases[i].Release?
    ensures Touched(releases) == {}
  {
    if releases != [] {
      ReleasesTouchNothing(releases[1..]);
    }
  }

  lemma TouchedAround(acquire: Action, inner: seq<Action>, releases: seq<Action>)
    requires acquire.Acquire? && forall i :: 0 <= i < |releases| ==> releases[i].Release?
    ensures Touched([acquire] + inner + releases) == Touched(inner)
  {
    ReleasesTouchNothing(releases);
    TouchedConcat([acquire], inner);
    TouchedConcat([acquire] + inner, releases);
  }

  lemma TouchesOne(l: Lock)
    ensures Touched(One(l)) == {l}
  {
    TouchedAround(Acquire({l}), [Access({l})], [Release(l)]);
  }

  lemma TouchesBoth(k: Lock, l: Lock)
    ensures Touched(Both(k, l)) == {k, l}
  {
    TouchedAround(Acquire({k, l}), [Access({k, l})], [Release(k), Release(l)]);
  }

  lemma {:induction false} TouchedTimes(n: nat, script: seq<Action>)
    ensures Touched(Times(n, script)) == if n == 0 then {} else Touched(script)
  {
    if n > 0 {
      TouchedTimes(n - 1, script);
      TouchedConcat(script, Times(n - 1, script));
    }
  }

  /** The steps of a flush, and what they read or change. */
  lemma StepsTouch()
    ensures Touched(SwapBuffers()) == {BufferLock, IntermediateLock}
    ensures Touched(SortIntermediateBuffer()) == {IntermediateLock}
    ensures Touched(MergeIntermediateBuffer()) == {PoolLock, IntermediateLock}
  {
    TouchesBoth(IntermediateLock, BufferLock);
    TouchesOne(IntermediateLock);
    TouchesBoth(IntermediateLock, PoolLock);
  }

  lemma RequestTouches(grows: bool, evicts: bool)
    ensures Touched(RequestFrame(grows, evicts)) == {PoolLock} + if evicts then {BufferLock} else {}
  {
    var look := [Access({PoolLock})];
    var growth := if grows then GrowPool() else [];
    TouchesOne(PoolLock);
    TouchesOne(BufferLock);
    TouchedAround(Acquire({BufferLock}), One(BufferLock), [Release(BufferLock)]);
    TouchedConcat(look, growth);
    TouchedConcat(look + growth, if evicts then Evict() else look);
    TouchedAround(Acquire({PoolLock}), look + growth + (if evicts then Evict() else look), [Release(PoolLock)]);
  }

  lemma ReturnTouches(n: nat)
    ensures Touched(ReturnIntermediateBuffer(n)) == if n == 0 then {} else {IntermediateLock, BufferLock}
  {
    var erase, releases := [Access({IntermediateLock})], [Release(BufferLock), Release(IntermediateLock)];
    TouchesOne(BufferLock);
    TouchedConcat(erase, QueueAccess());
    TouchedTimes(n, erase + QueueAccess());
    TouchedAround(Acquire({BufferLock, IntermediateLock}), Times(n, erase + QueueAccess()), releases);
  }

  lemma SendTouches(overflows: bool, left: nat)
    ensures {IntermediateLock} <= Touched(SendPacket(overflows, left)) <= {IntermediateLock, BufferLock}
  {
    var pack := [Access({IntermediateLock})];
    var back := if overflows then ReturnIntermediateBuffer(left) else [];
    ReturnTouches(left);
    TouchedConcat(pack, back);
    TouchedAround(Acquire({IntermediateLock}), pack + back, [Release(IntermediateLock)]);
  }

  lemma FlushTouches(sort: bool, overflows: bool, left: nat)
    ensures Touched(PrepareBuffer(sort, overflows, left)) == {PoolLock, BufferLock, IntermediateLock}
  {
    var sorting, send := if sort then SortIntermediateBuffer() else [], SendPacket(overflows, left);
    StepsTouch();
    TouchedConcat(SwapBuffers(), sorting);
    SendTouches(overflows, left);
    TouchedConcat(SwapBuffers() + sorting, send);
    TouchedConcat(SwapBuffers() + sorting + send, MergeIntermediateBuffer());
  }

  /** Which lists each operation reads or changes. */
  lemma OperationTouches(op: Operation)
    ensures Touched(Script(op)) == match op
              case Request(_, evicts) => {PoolLock} + if evicts then {BufferLock} else {}
              case ToPool => {PoolLock}
              case Queue => {BufferLock}
              case Flush(_, _, _) => {PoolLock, BufferLock, IntermediateLock}
              case Clear => {PoolLock, BufferLock, IntermediateLock}
  {
    match op
    case Request(grows, evicts) => RequestTouches(grows, evicts);
    case ToPool => TouchesOne(PoolLock);
    case Queue => TouchesOne(BufferLock);
    case Flush(sort, overflows, left) => FlushTouches(sort, overflows, left);
    case Clear =>
      var all, releases := {PoolLock, BufferLock, IntermediateLock},
                           [Release(IntermediateLock), Release(BufferLock), Release(PoolLock)];
      TouchedAround(Acquire(all), [Access(all)], releases);
  }

  // ----- The discipline

  /** What may be acquired while something is held: the queue's lock, and nothing new once that
      is held. */
  predicate MayAcquire(held: Held, locks: set<Lock>) {
    forall l :: l in locks && !held.Holds(l) ==> held == Nothing || (l == BufferLock && !held.Holds(BufferLock))
  }

  /** Every action of a script keeps the discipline, starting with `held`: locks are acquired in
      order, and a list is accessed only under its lock. */
  predicate Safe(held: Held, script: seq<Action>)
    decreases |script|
  {
    script == [] ||
    match script[0]
    case Acquire(locks) => MayAcquire(held, locks) && Safe(held.Plus(locks), script[1..])
    case Release(l) => held.Holds(l) && Safe(held.Minus(l), script[1..])
    case Access(lists) => (forall l :: l in lists ==> held.Holds(l)) && Safe(held, script[1..])
  }

  function After(held: Held, script: seq<Action>): Held
    requires Safe(held, script)
    decreases |script|
  {
    if script == [] then held
    else
      match script[0]
      case Acquire(locks) => After(held.Plus(locks), script[1..])
      case Release(l) => After(held.Minus(l), script[1..])
      case Access(_) => After(held, script[1..])
  }

  /** A safe script that gives back what it takes. */
  predicate Balanced(held: Held, script: seq<Action>) {
    Safe(held, script) && After(held, script) == held
  }

  lemma {:induction false} Chain(held: Held, a: seq<Action>, b: seq<Action>)
    requires Safe(held, a) && Safe(After(held, a), b)
    ensures Safe(held, a + b) && After(held, a + b) == After(After(held, a), b)
    decreases |a|
  {
    if a == [] {
      assert a + b == b;
    } else {
      assert (a + b)[1..] == a[1..] + b;
      match a[0]
      case Acquire(locks) => Chain(held.Plus(locks), a[1..], b);
      case Release(l) => Chain(held.Minus(l), a[1..], b);
      case Access(_) => Chain(held, a[1..], b);
    }
  }

  lemma BalancedPair(held: Held, a: seq<Action>, b: seq<Action>)
    requires Balanced(held, a) && Balanced(held, b)
    ensures Balanced(held, a + b)
  {
    Chain(held, a, b);
  }

  /** Locks around a balanced script. */
  lemma Bracket(held: Held, locks: set<Lock>, inner: seq<Action>, releases: seq<Action>)
    requires MayAcquire(held, locks) && Balanced(held.Plus(locks), inner)
    requires Safe(held.Plus(locks), releases) && After(held.Plus(locks), releases) == held
    ensures Balanced(held, [Acquire(locks)] + inner + releases)
  {
    var inside := [Acquire(locks)] + inner;
    assert inside[1..] == inner;
    Chain(held, inside, releases);
  }

  lemma ReleaseOne(held: Held, l: Lock)
    ensures Safe(held.Plus({l}), [Release(l)]) && After(held.Plus({l}), [Release(l)]) == held
  {
    assert [Release(l)][1..] == [];
  }

  lemma ReleaseTwo(held: Held, k: Lock, l: Lock)
    requires k != l
    ensures var h := held.Plus({k, l});
            Safe(h, [Release(k), Release(l)]) && After(h, [Release(k), Release(l)]) == held
  {
    assert [Release(k), Release(l)][1..] == [Release(l)];
    assert held.Plus({k, l}).Minus(k) == held.Plus({l});
    ReleaseOne(held, l);
  }

  lemma BalancedOne(held: Held, l: Lock)
    requires MayAcquire(held, {l})
    ensures Balanced(held, One(l))
  {
    BalancedAccess(held.Plus({l}), {l});
    ReleaseOne(held, l);
    Bracket(held, {l}, [Access({l})], [Release(l)]);
  }

  lemma BalancedAccess(held: Held, lists: set<Lock>)
    requires forall l :: l in lists ==> held.Holds(l)
    ensures Balanced(held, [Access(lists)])
  {
    assert [Access(lists)][1..] == [];
  }

  lemma {:induction false} BalancedTimes(held: Held, n: nat, script: seq<Action>)
    requires Balanced(held, script)
    ensures Balanced(held, Times(n, script))
  {
    if n > 0 {
      BalancedTimes(held, n - 1, script);
      BalancedPair(held, script, Times(n - 1, script));
    }
  }

  lemma EvictIsBalanced(held: Held)
    requires !held.Holds(BufferLock)
    ensures Balanced(held, Evict())
  {
    BalancedOne(held.Plus({BufferLock}), BufferLock);
    ReleaseOne(held, BufferLock);
    Bracket(held, {BufferLock}, One(BufferLock), [Release(BufferLock)]);
  }

  lemma RequestFrameIsBalanced(grows: bool, evicts: bool)
    ensures Balanced(Nothing, RequestFrame(grows, evicts))
  {
    var h := Nothing.Plus({PoolLock});
    var look := [Access({PoolLock})];
    var growth := if grows then GrowPool() else [];
    var take := if evicts then Evict() else look;
    BalancedOne(h, PoolLock);
    EvictIsBalanced(h);
    BalancedAccess(h, {PoolLock});
    BalancedPair(h, look, growth);
    BalancedPair(h, look + growth, take);
    ReleaseOne(Nothing, PoolLock);
    Bracket(Nothing, {PoolLock}, look + growth + take, [Release(PoolLock)]);
  }

  lemma ReturnIsBalanced(n: nat)
    ensures Balanced(Nothing.Plus({IntermediateLock}), ReturnIntermediateBuffer(n))
  {
    var h, locks := Nothing.Plus({IntermediateLock}), {BufferLock, IntermediateLock};
    var erase := [Access({IntermediateLock})];
    BalancedAccess(h.Plus(locks), {IntermediateLock});
    BalancedOne(h.Plus(locks), BufferLock);
    BalancedPair(h.Plus(locks), erase, QueueAccess());
    BalancedTimes(h.Plus(locks), n, erase + QueueAccess());
    ReleaseTwo(h, BufferLock, IntermediateLock);
    Bracket(h, locks, Times(n, erase + QueueAccess()), [Release(BufferLock), Release(IntermediateLock)]);
  }

  lemma TwoAtOnceIsBalanced(k: Lock, l: Lock)
    requires k != l
    ensures Balanced(Nothing, Both(k, l))
  {
    BalancedAccess(Nothing.Plus({k, l}), {k, l});
    ReleaseTwo(Nothing, k, l);
    Bracket(Nothing, {k, l}, [Access({k, l})], [Release(k), Release(l)]);
  }

  lemma SendPacketIsBalanced(overflows: bool, left: nat)
    ensures Balanced(Nothing, SendPacket(overflows, left))
  {
    var h, pack := Nothing.Plus({IntermediateLock}), [Access({IntermediateLock})];
    var back := if overflows then ReturnIntermediateBuffer(left) else [];
    ReturnIsBalanced(left);
    BalancedAccess(h, {IntermediateLock});
    BalancedPair(h, pack, back);
    ReleaseOne(Nothing, IntermediateLock);
    Bracket(Nothing, {IntermediateLock}, pack + back, [Release(IntermediateLock)]);
  }

  lemma PrepareBufferIsBalanced(sort: bool, overflows: bool, left: nat)
    ensures Balanced(Nothing, PrepareBuffer(sort, overflows, left))
  {
    TwoAtOnceIsBalanced(IntermediateLock, BufferLock);
    BalancedOne(Nothing, IntermediateLock);
    var sorted := SwapBuffers() + (if sort then SortIntermediateBuffer() else []);
    BalancedPair(Nothing, SwapBuffers(), if sort then SortIntermediateBuffer() else []);
    SendPacketIsBalanced(overflows, left);
    BalancedPair(Nothing, sorted, SendPacket(overflows, left));
    TwoAtOnceIsBalanced(IntermediateLock, PoolLock);
    BalancedPair(Nothing, sorted + SendPacket(overflows, left), MergeIntermediateBuffer());
  }

  lemma ResetIsBalanced()
    ensures Balanced(Nothing, Reset())
  {
    var all, h := {PoolLock, BufferLock, IntermediateLock}, Held(1, 1, 1);
    var releases := [Release(IntermediateLock), Release(BufferLock), Release(PoolLock)];
    assert Nothing.Plus(all) == h;
    BalancedAccess(h, all);
    assert releases[1..] == [Release(BufferLock), Release(PoolLock)];
    assert h.Minus(IntermediateLock) == Nothing.Plus({BufferLock, PoolLock});
    ReleaseTwo(Nothing, BufferLock, PoolLock);
    Bracket(Nothing, all, [Access(all)], releases);
  }

  /** Every operation of the frame buffer keeps the discipline. */
  lemma OperationIsBalanced(op: Operation)
    ensures Balanced(Nothing, Script(op))
  {
    match op
    case Request(grows, evicts) => RequestFrameIsBalanced(grows, evicts);
    case ToPool => BalancedOne(Nothing, PoolLock);
    case Queue => BalancedOne(Nothing, BufferLock);
    case Flush(sort, overflows, left) => PrepareBufferIsBalanced(sort, overflows, left);
    case Clear => ResetIsBalanced();
  }

  lemma {:induction false} ProgramIsBalanced(ops: seq<Operation>)
    ensures Balanced(Nothing, Program(ops))
  {
    if ops != [] {
      OperationIsBalanced(ops[0]);
      ProgramIsBalanced(ops[1..]);
      BalancedPair(Nothing, Script(ops[0]), Program(ops[1..]));
    }
  }

  // ----- Threads

  /** The thread's next action can be taken now. */
  predicate Enabled(ts: seq<Thread>, i: nat) {
    && i < |ts| && ts[i].script != []
    && (ts[i].script[0].Acquire? ==>
          forall j, l :: 0 <= j < |ts| && j != i && l in ts[i].script[0].locks ==> !ts[j].held.Holds(l))
  }

  /** What all threads keep: the rest of each script is safe and gives everything back, and no
      lock is held by two threads. */
  ghost predicate Sound(ts: seq<Thread>) {
    && (forall i :: 0 <= i < |ts| ==> Safe(ts[i].held, ts[i].script) && After(ts[i].held, ts[i].script) == Nothing)
    && (forall i, j, l: Lock :: 0 <= i < |ts| && 0 <= j < |ts| && ts[i].held.Holds(l) && ts[j].held.Holds(l) ==> i == j)
  }

  function Advance(t: Thread): Thread
    requires t.script != []
  {
    match t.script[0]
    case Acquire(locks) => Thread(t.held.Plus(locks), t.script[1..])
    case Release(l) => Thread(t.held.Minus(l), t.script[1..])
    case Access(_) => Thread(t.held, t.script[1..])
  }

  function Step(ts: seq<Thread>, i: nat): seq<Thread>
    requires Enabled(ts, i)
  {
    ts[i := Advance(ts[i])]
  }

  lemma StepKeepsSound(ts: seq<Thread>, i: nat)
    requires Sound(ts) && Enabled(ts, i)
    ensures Sound(Step(ts, i))
  {
    var t, t' := ts[i], Advance(ts[i]);
    forall j, l: Lock | 0 <= j < |ts| && j != i && t'.held.Holds(l) ensures !ts[j].held.Holds(l) {
      if !t.held.Holds(l) {
        assert t.script[0].Acquire? && l in t.script[0].locks;
      }
    }
  }

  /** Thread i is about to access the list that `l` guards. */
  predicate Accesses(ts: seq<Thread>, i: nat, l: Lock)
    requires i < |ts|
  {
    ts[i].script != [] && ts[i].script[0].Access? && l in ts[i].script[0].lists
  }

  /** No two threads are about to access the same list. */
  ghost predicate RaceFree(ts: seq<Thread>) {
    forall i, j, l :: 0 <= i < |ts| && 0 <= j < |ts| && Accesses(ts, i, l) && Accesses(ts, j, l) ==> i == j
  }

  lemma SoundIsRaceFree(ts: seq<Thread>)
    requires Sound(ts)
    ensures RaceFree(ts)
  {
    forall i, j, l | 0 <= i < |ts| && 0 <= j < |ts| && Accesses(ts, i, l) && Accesses(ts, j, l) ensures i == j {
      assert ts[i].held.Holds(l) && ts[j].held.Holds(l);
    }
  }

  /** Deadlock freedom: as long as some thread is not finished, some thread can go on. A thread
      that holds the queue's lock never waits; if none does, no thread that holds anything
      waits; and if nobody holds anything, nobody waits. */
  lemma NoDeadlock(ts: seq<Thread>, k: nat)
    requires Sound(ts) && k < |ts| && ts[k].script != []
    ensures exists i :: Enabled(ts, i)
  {
    if i :| 0 <= i < |ts| && ts[i].held.Holds(BufferLock) {
      assert ts[i].script != [];
      assert Enabled(ts, i);
    } else if i :| 0 <= i < |ts| && ts[i].held != Nothing {
      assert ts[i].script != [];
      assert Enabled(ts, i);
    } else {
      assert Enabled(ts, k);
    }
  }

  // ----- Runs

  /** The threads before anything happens: each is about to run its operations. */
  function Start(programs: seq<seq<Operation>>): seq<Thread> {
    if programs == [] then [] else [Thread(Nothing, Program(programs[0]))] + Start(programs[1..])
  }

  lemma {:induction false} StartIsSound(programs: seq<seq<Operation>>)
    ensures Sound(Start(programs))
    ensures forall i :: 0 <= i < |Start(programs)| ==> Start(programs)[i].held == Nothing
  {
    if programs != [] {
      ProgramIsBalanced(programs[0]);
      StartIsSound(programs[1..]);
    }
  }

  /** A schedule names the thread that takes each step. */
  predicate Runs(ts: seq<Thread>, schedule: seq<nat>)
    decreases |schedule|
  {
    schedule == [] || (Enabled(ts, schedule[0]) && Runs(Step(ts, schedule[0]), schedule[1..]))
  }

  function Run(ts: seq<Thread>, schedule: seq<nat>): seq<Thread>
    requires Runs(ts, schedule)
    decreases |schedule|
  {
    if schedule == [] then ts else Run(Step(ts, schedule[0]), schedule[1..])
  }

  /** The actions still to come. */
  function Remaining(ts: seq<Thread>): nat {
    if ts == [] then 0 else |ts[0].script| + Remaining(ts[1..])
  }

  lemma {:induction false} StepUsesOneAction(ts: seq<Thread>, i: nat, t: Thread)
    requires i < |ts| && |t.script| + 1 == |ts[i].script|
    ensures Remaining(ts[i := t]) + 1 == Remaining(ts)
  {
    if i == 0 {
      assert ts[i := t][1..] == ts[1..];
    } else {
      assert ts[i := t][1..] == ts[1..][i - 1 := t];
      StepUsesOneAction(ts[1..], i - 1, t);
    }
  }

  lemma {:induction false} SomeoneIsUnfinished(ts: seq<Thread>) returns (k: nat)
    requires Remaining(ts) > 0
    ensures k < |ts| && ts[k].script != []
  {
    if ts[0].script != [] {
      k := 0;
    } else {
      var j := SomeoneIsUnfinished(ts[1..]);
      k := j + 1;
    }
  }

  lemma {:induction false} RunKeepsSound(ts: seq<Thread>, schedule: seq<nat>)
    requires Sound(ts) && Runs(ts, schedule)
    ensures Sound(Run(ts, schedule))
    ensures Remaining(Run(ts, schedule)) + |schedule| == Remaining(ts)
    decreases |schedule|
  {
    if schedule != [] {
      var i := schedule[0];
      StepKeepsSound(ts, i);
      StepUsesOneAction(ts, i, Advance(ts[i]));
      RunKeepsSound(Step(ts, i), schedule[1..]);
    }
  }

  /** From every sound state some schedule lets all threads finish. */
  lemma {:induction false} CanFinish(ts: seq<Thread>) returns (schedule: seq<nat>)
    requires Sound(ts)
    ensures Runs(ts, schedule) && Remaining(Run(ts, schedule)) == 0
    decreases Remaining(ts)
  {
    schedule := [];
    if Remaining(ts) > 0 {
      var k := SomeoneIsUnfinished(ts);
      NoDeadlock(ts, k);
      var i: nat :| Enabled(ts, i);
      StepKeepsSound(ts, i);
      StepUsesOneAction(ts, i, Advance(ts[i]));
      var rest := CanFinish(Step(ts, i));
      schedule := [i] + rest;
      assert schedule[1..] == rest;
    }
  }

  /** Whatever operations the threads run and however they are scheduled: no lock is ever held
      by two threads, no two are about to access the same list, a state in which some thread has not
      finished is never stuck, every run is at most as long as the number of actions, and can be
      continued until all have finished. */
  lemma DeadlockFree(programs: seq<seq<Operation>>, schedule: seq<nat>) returns (rest: seq<nat>)
    requires Runs(Start(programs), schedule)
    ensures var ts := Run(Start(programs), schedule);
            && Sound(ts) && RaceFree(ts)
            && (Remaining(ts) > 0 ==> exists i :: Enabled(ts, i))
            && |schedule| <= Remaining(Start(programs))
            && Runs(ts, rest) && Remaining(Run(ts, rest)) == 0
  {
    StartIsSound(programs);
    RunKeepsSound(Start(programs), schedule);
    var ts := Run(Start(programs), schedule);
    SoundIsRaceFree(ts);
    rest := CanFinish(ts);
    if Remaining(ts) > 0 {
      var k := SomeoneIsUnfinished(ts);
      NoDeadlock(ts, k);
    }
  }
}
