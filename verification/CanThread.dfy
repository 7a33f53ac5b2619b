/**
 The CAN thread's writing side: frames from the network are queued and written to the CAN
 socket in order. What a socket call returns is a parameter.
 */
module CanThreads {
  import opened Can
  import opened CanWriter
  import opened FrameBuffers
  import opened Sequences
  import opened Timers
  import Ledger

  const CAN_TIMEOUT := 2_000_000
  const CAN_RETRY := 25

  /** A frame as it is handed to the socket, without the CAN FD mark. */
  function Bare(v: CanFrame): CanFrame { v.(len := DataLen(v.len)) }

  /** A frame object and what it holds for the socket. */
  datatype Item = Item(frame: Frame, value: CanFrame)

  /** The queue as the writer sees it: which frame with which contents, and whether it is marked
      as CAN FD. */
  ghost function Tokens(fs: seq<Frame>): seq<Token<Item>>
    reads fs
  {
    if fs == [] then []
    else [Token(Item(fs[0], Bare(fs[0].Value())), IsFd(fs[0].len))] + Tokens(fs[1..])
  }

  lemma {:induction false} TokensLength(fs: seq<Frame>)
    ensures |Tokens(fs)| == |fs|
  {
    if fs != [] {
      TokensLength(fs[1..]);
    }
  }

  lemma {:induction false} TokensAppend(fs: seq<Frame>, f: Frame)
    ensures Tokens(fs + [f]) == Tokens(fs) + [Token(Item(f, Bare(f.Value())), IsFd(f.len))]
  {
    if fs == [] {
      assert fs + [f] == [f] && [f][1..] == [];
    } else {
      assert (fs + [f])[1..] == fs[1..] + [f];
      TokensAppend(fs[1..], f);
    }
  }

  lemma TrafficGrows(writes: seq<Write<Item>>, q: seq<Token<Item>>, t: Token<Item>, canfd: bool)
    ensures WrittenKeys(writes) + Order(q + [t], canfd)
         == WrittenKeys(writes) + Order(q, canfd) + OneIf(t.key, Takeable(t.fd, canfd))
  {
    OrderAppend(q, t, canfd);
    Associative(WrittenKeys(writes), Order(q, canfd), OneIf(t.key, Takeable(t.fd, canfd)));
  }

  lemma TrafficStays(writes: seq<Write<Item>>, q: seq<Token<Item>>, canfd: bool, ok: seq<bool>)
    requires |q| <= |ok|
    ensures var o := Pass(q, canfd, ok);
            WrittenKeys(writes + o.written) + Order(o.left, canfd) == WrittenKeys(writes) + Order(q, canfd)
  {
    var o := Pass(q, canfd, ok);
    PassKeepsOrder(q, canfd, ok);
    WrittenConcat(writes, o.written);
    Associative(WrittenKeys(writes), WrittenKeys(o.written), Order(o.left, canfd));
  }

  class CanThread {
    const frameBuffer: FrameBuffer
    const timer: Timer
    /** Whether the socket takes CAN FD frames. */
    const canfd: bool
    var txCount: nat
    ghost var writes: seq<Write<Item>>

    constructor (fb: FrameBuffer, canfd: bool)
      requires fb.Valid()
      ensures Valid() && frameBuffer == fb && fresh(timer) && this.canfd == canfd
      ensures timer.State() == Adjusted(CAN_TIMEOUT, CAN_TIMEOUT) && txCount == 0 && writes == []
    {
      frameBuffer, this.canfd, txCount, writes := fb, canfd, 0, [];
      timer := new Timer();
      new;
      timer.Adjust(CAN_TIMEOUT, CAN_TIMEOUT);
    }

    ghost predicate Valid()
      reads this, frameBuffer, frameBuffer.buffer
    {
      frameBuffer.Valid()
    }

    /** Everything the socket has taken and can still take, in order. */
    ghost function Traffic(): seq<Item>
      reads this, frameBuffer, frameBuffer.buffer
    {
      WrittenKeys(writes) + Order(Tokens(frameBuffer.buffer), canfd)
    }

    /** Queues a frame and wakes the writer. */
    method TransmitFrame(frame: Frame)
      requires Valid() && frame in frameBuffer.loaned
      modifies frameBuffer`buffer, frameBuffer`bufferSize, frameBuffer`loaned, timer
      ensures Valid() && timer.State() == TimerState(2_000_000_000, 1000)
      ensures frameBuffer.buffer == old(frameBuffer.buffer) + [frame]
      ensures frameBuffer.loaned == old(frameBuffer.loaned) - {frame}
      ensures Traffic() == old(Traffic()) + OneIf(Item(frame, Bare(frame.Value())), Takeable(IsFd(frame.len), canfd))
    {
      ghost var q, t := Tokens(frameBuffer.buffer), Token(Item(frame, Bare(frame.Value())), IsFd(frame.len));
      TokensAppend(frameBuffer.buffer, frame);
      frameBuffer.InsertFrame(frame);
      assert Tokens(frameBuffer.buffer) == q + [t];
      TrafficGrows(writes, q, t, canfd);
      timer.Adjust(CAN_TIMEOUT, 1);
    }

    /** Takes the oldest frame off the queue, notes its CAN FD mark and clears it. */
    method TakeFront() returns (frame: Frame, fd: bool)
      requires Valid() && frameBuffer.buffer != []
      modifies frameBuffer`buffer, frameBuffer`bufferSize, frameBuffer`loaned, frameBuffer.buffer[0]
      ensures Valid()
      ensures old(frameBuffer.buffer) == [frame] + frameBuffer.buffer
      ensures frame.Value() == Bare(old(frameBuffer.buffer[0].Value())) && fd == IsFd(old(frameBuffer.buffer[0].len))
      ensures old(Tokens(frameBuffer.buffer)) == [Token(Item(frame, frame.Value()), fd)] + Tokens(frameBuffer.buffer)
      ensures frame !in old(frameBuffer.loaned) && frameBuffer.loaned == old(frameBuffer.loaned) + {frame}
    {
      frame := frameBuffer.RequestBufferFront();
      Ledger.NotQueued(frameBuffer.framePool, frameBuffer.buffer, frameBuffer.intermediateBuffer,
                       frameBuffer.loaned, frameBuffer.frames, frame);
      assert old(frameBuffer.buffer)[1..] == frameBuffer.buffer;
      fd := IsFd(frame.len);
      frame.len := DataLen(frame.len);
    }

    /** Hands a frame to the socket as it is. A classic socket is not offered CAN FD frames; a frame
        that the socket refuses returns to the head of the queue. */
    method Offer(frame: Frame, fd: bool, accepted: bool) returns (r: Verdict)
      requires Valid() && frame in frameBuffer.loaned && !IsFd(frame.len)
      modifies frameBuffer`buffer, frameBuffer`bufferSize, frameBuffer`loaned, frameBuffer`framePool,
               timer, `txCount, `writes
      ensures Valid() && frameBuffer.loaned == old(frameBuffer.loaned) - {frame}
      ensures r == Judge(fd, canfd, accepted)
      ensures r == Refused ==>
                && frameBuffer.buffer == [frame] + old(frameBuffer.buffer)
                && frameBuffer.framePool == old(frameBuffer.framePool)
                && Tokens(frameBuffer.buffer)
                == [Token(Item(frame, frame.Value()), false)] + old(Tokens(frameBuffer.buffer))
      ensures r != Refused ==>
                && frameBuffer.buffer == old(frameBuffer.buffer)
                && frameBuffer.framePool == old(frameBuffer.framePool) + [frame]
                && Tokens(frameBuffer.buffer) == old(Tokens(frameBuffer.buffer))
      ensures writes == if r == Written then old(writes) + [Write(Item(frame, frame.Value()), fd)] else old(writes)
      ensures txCount == old(txCount) + (if r == Written then 1 else 0)
      ensures timer.State() == if r == Refused then Adjusted(CAN_TIMEOUT, CAN_RETRY) else old(timer.State())
    {
      if !canfd && fd {
        Release(frame);
        r := Dropped;
      } else if accepted {
        Release(frame);
        txCount := txCount + 1;
        writes := writes + [Write(Item(frame, frame.Value()), fd)];
        r := Written;
      } else {
        Retry(frame);
        r := Refused;
      }
    }

    /** The frame becomes free. */
    method Release(frame: Frame)
      requires Valid() && frame in frameBuffer.loaned
      modifies frameBuffer`framePool, frameBuffer`loaned
      ensures Valid() && frameBuffer.loaned == old(frameBuffer.loaned) - {frame}
      ensures frameBuffer.framePool == old(frameBuffer.framePool) + [frame]
      ensures Tokens(frameBuffer.buffer) == old(Tokens(frameBuffer.buffer))
    {
      frameBuffer.InsertFramePool(frame);
    }

    /** The frame goes back to the head of the queue, to be tried again soon. */
    method Retry(frame: Frame)
      requires Valid() && frame in frameBuffer.loaned && !IsFd(frame.len)
      modifies frameBuffer`buffer, frameBuffer`bufferSize, frameBuffer`loaned, timer
      ensures Valid() && frameBuffer.loaned == old(frameBuffer.loaned) - {frame}
      ensures frameBuffer.buffer == [frame] + old(frameBuffer.buffer)
      ensures Tokens(frameBuffer.buffer) == [Token(Item(frame, frame.Value()), false)] + old(Tokens(frameBuffer.buffer))
      ensures timer.State() == Adjusted(CAN_TIMEOUT, CAN_RETRY)
    {
      assert ([frame] + frameBuffer.buffer)[1..] == frameBuffer.buffer;
      frameBuffer.ReturnFrame(frame);
      timer.Adjust(CAN_TIMEOUT, CAN_RETRY);
    }

    /** One round of the writer's loop. */
    method WriteFront(accepted: bool, ghost tokens: seq<Token<Item>>)
      returns (r: Verdict, ghost t: Token<Item>, ghost rest: seq<Token<Item>>)
      requires Valid() && frameBuffer.buffer != [] && tokens == Tokens(frameBuffer.buffer)
      modifies frameBuffer`buffer, frameBuffer`bufferSize, frameBuffer`loaned, frameBuffer`framePool,
               frameBuffer.buffer[0], timer, `txCount, `writes
      ensures Valid() && frameBuffer.loaned == old(frameBuffer.loaned)
      ensures tokens == [t] + rest && r == Judge(t.fd, canfd, accepted)
      ensures Tokens(frameBuffer.buffer) == if r == Refused then [Token(t.key, false)] + rest else rest
      ensures frameBuffer.buffer == if r == Refused then old(frameBuffer.buffer) else old(frameBuffer.buffer)[1..]
      ensures frameBuffer.framePool + frameBuffer.buffer == old(frameBuffer.framePool) + old(frameBuffer.buffer)
      ensures writes == if r == Written then old(writes) + [Write(t.key, t.fd)] else old(writes)
      ensures txCount == old(txCount) + (if r == Written then 1 else 0)
      ensures timer.State() == if r == Refused then Adjusted(CAN_TIMEOUT, CAN_RETRY) else old(timer.State())
    {
      var frame, fd := TakeFront();
      t, rest := Token(Item(frame, frame.Value()), fd), Tokens(frameBuffer.buffer);
      ghost var behind := frameBuffer.buffer;
      r := Offer(frame, fd, accepted);
      Associative(old(frameBuffer.framePool), [frame], behind);
    }

    /** The writer's loop is heading for `o`: `done` has happened, the rest of the queue is still
        to be offered to the socket. */
    ghost predicate Writing(o: Outcome<Item>, done: Outcome<Item>, results: seq<bool>)
      reads frameBuffer, frameBuffer.buffer
    {
      && |frameBuffer.buffer| == |Tokens(frameBuffer.buffer)| <= |results|
      && o == Resume(done, Pass(Tokens(frameBuffer.buffer), canfd, results))
      && done.refused == []
    }

    /** One round and what it adds to the outcome. */
    method WriteNext(results: seq<bool>, ghost o: Outcome<Item>, ghost done: Outcome<Item>,
                     ghost before: seq<Write<Item>>, ghost count: nat)
      returns (more: bool, results': seq<bool>, ghost done': Outcome<Item>)
      requires Valid() && frameBuffer.buffer != [] && Writing(o, done, results)
      requires writes == before + done.written && txCount == count + |done.written|
      modifies frameBuffer`buffer, frameBuffer`bufferSize, frameBuffer`loaned, frameBuffer`framePool,
               frameBuffer.buffer[0], timer, `txCount, `writes
      ensures Valid() && frameBuffer.loaned == old(frameBuffer.loaned)
      ensures frameBuffer.framePool + frameBuffer.buffer == old(frameBuffer.framePool) + old(frameBuffer.buffer)
      ensures more ==> Writing(o, done', results') && frameBuffer.buffer == old(frameBuffer.buffer)[1..]
      ensures !more ==> o.written == done'.written && o.left == Tokens(frameBuffer.buffer)
      ensures !more ==> frameBuffer.buffer == old(frameBuffer.buffer) && o.refused != []
      ensures timer.State() == if more then old(timer.State()) else Adjusted(CAN_TIMEOUT, CAN_RETRY)
      ensures writes == before + done'.written && txCount == count + |done'.written|
    {
      ghost var tokens := Tokens(frameBuffer.buffer);
      var r, t, rest := WriteFront(results[0], tokens);
      PassOne(t, rest, canfd, results, done);
      done' := Noted(done, t, r);
      more, results' := r != Refused, if r == Dropped then results else results[1..];
      Associative(before, done.written, [Write(t.key, t.fd)]);
    }

    /** The writer's loop. */
    method WriteAll(accepted: seq<bool>, ghost o: Outcome<Item>)
      requires Valid() && Writing(o, Outcome([], [], [], []), accepted)
      modifies frameBuffer`buffer, frameBuffer`bufferSize, frameBuffer`loaned, frameBuffer`framePool,
               frameBuffer.buffer, timer, `txCount, `writes
      ensures Valid() && frameBuffer.loaned == old(frameBuffer.loaned)
      ensures Tokens(frameBuffer.buffer) == o.left
      ensures writes == old(writes) + o.written && txCount == old(txCount) + |o.written|
      ensures timer.State() == if o.refused == [] then old(timer.State()) else Adjusted(CAN_TIMEOUT, CAN_RETRY)
      ensures frameBuffer.framePool + frameBuffer.buffer == old(frameBuffer.framePool) + old(frameBuffer.buffer)
      ensures forall f :: f in frameBuffer.buffer ==> f in old(frameBuffer.buffer)
    {
      ghost var done: Outcome<Item> := Outcome([], [], [], []);
      var more, results := true, accepted;
      while more && frameBuffer.buffer != []
        invariant Valid() && frameBuffer.loaned == old(frameBuffer.loaned)
        invariant forall f :: f in frameBuffer.buffer ==> f in old(frameBuffer.buffer)
        invariant frameBuffer.framePool + frameBuffer.buffer == old(frameBuffer.framePool) + old(frameBuffer.buffer)
        invariant more ==> Writing(o, done, results)
        invariant !more ==> o.written == done.written && o.left == Tokens(frameBuffer.buffer) && o.refused != []
        invariant timer.State() == if more then old(timer.State()) else Adjusted(CAN_TIMEOUT, CAN_RETRY)
        invariant writes == old(writes) + done.written && txCount == old(txCount) + |done.written|
        decreases more, |frameBuffer.buffer|
      {
        assert frameBuffer.buffer[0] in frameBuffer.buffer;
        more, results, done := WriteNext(results, o, done, old(writes), old(txCount));
      }
    }

    /** Writes the queue front to back until it is empty or the socket refuses a frame, which is
        tried again when the timer expires; `accepted[k]` is whether the k-th write is taken. */
    method TransmitBuffer(accepted: seq<bool>)
      requires Valid() && |frameBuffer.buffer| <= |accepted|
      modifies frameBuffer`buffer, frameBuffer`bufferSize, frameBuffer`loaned, frameBuffer`framePool,
               frameBuffer.buffer, timer, `txCount, `writes
      ensures Valid() && frameBuffer.loaned == old(frameBuffer.loaned)
      ensures |old(Tokens(frameBuffer.buffer))| <= |accepted|
      ensures var o := Pass(old(Tokens(frameBuffer.buffer)), canfd, accepted);
              && Tokens(frameBuffer.buffer) == o.left
              && writes == old(writes) + o.written
              && txCount == old(txCount) + |o.written|
              && timer.State() == (if o.refused == [] then old(timer.State()) else TimerState(2_000_000_000, 25_000))
      ensures Traffic() == old(Traffic())
      ensures !canfd && AllClassic(old(writes)) ==> AllClassic(writes)
      ensures frameBuffer.framePool + frameBuffer.buffer == old(frameBuffer.framePool) + old(frameBuffer.buffer)
      ensures forall f :: f in frameBuffer.buffer ==> f in old(frameBuffer.buffer)
    {
      ghost var q := Tokens(frameBuffer.buffer);
      TokensLength(frameBuffer.buffer);
      TrafficStays(writes, q, canfd, accepted);
      PassSuitsSocket(q, canfd, accepted);
      WriteAll(accepted, Pass(q, canfd, accepted));
    }
  }

  datatype Verdict = Dropped | Written | Refused

  function Judge(fd: bool, canfd: bool, accepted: bool): Verdict {
    if !canfd && fd then Dropped else if accepted then Written else Refused
  }

  /** The outcome so far with one more verdict. */
  ghost function Noted<T>(done: Outcome<T>, t: Token<T>, r: Verdict): Outcome<T> {
    match r
    case Dropped => done.(dropped := done.dropped + [t.key])
    case Written => done.(written := done.written + [Write(t.key, t.fd)])
    case Refused => done.(refused := done.refused + [t.key])
  }

  ghost function Resume<T>(done: Outcome<T>, o: Outcome<T>): Outcome<T> {
    Outcome(done.written + o.written, done.dropped + o.dropped, done.refused + o.refused, o.left)
  }

  lemma PassOne<T>(t: Token<T>, q: seq<Token<T>>, canfd: bool, ok: seq<bool>, done: Outcome<T>)
    requires |q| < |ok|
    ensures var o, r := Resume(done, Pass([t] + q, canfd, ok)), Judge(t.fd, canfd, ok[0]);
            if r == Refused then o == Noted(done, t, r).(left := [Token(t.key, false)] + q)
            else o == Resume(Noted(done, t, r), Pass(q, canfd, if r == Dropped then ok else ok[1..]))
  {
    assert ([t] + q)[1..] == q;
    var rest := Pass(q, canfd, if !canfd && t.fd then ok else ok[1..]);
    Associative(done.dropped, [t.key], rest.dropped);
    Associative(done.written, [Write(t.key, t.fd)], rest.written);
  }
}
