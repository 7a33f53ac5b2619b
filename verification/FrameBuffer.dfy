/**
 The frame buffer: an allocator of frames and three lists they move between. `framePool`
 holds free frames, `buffer` the queue, `intermediateBuffer` the frames of a flush under way.
 A frame that is in none of the lists is on loan to the code that requested it.

 Each public operation of the program takes its locks for its whole duration, so the methods
 here are its atomic steps; `Locks` models the locks themselves.
 */
module FrameBuffers {
  import opened Can
  import opened Codec
  import opened Inbox
  import opened Ledger
  import opened Sequences

  // ----- Growth of the pool

  /** The allocation count after one growth: doubled, up to the cap if there is one. */
  function Grown(total: nat, max: nat): nat {
    if max == 0 then 2 * total
    else if max <= total then total
    else total + (if max - total < total then max - total else total)
  }

  function AfterGrowths(size: nat, max: nat, k: nat): nat {
    if k == 0 then size else Grown(AfterGrowths(size, max, k - 1), max)
  }

  function Doubled(size: nat, k: nat): nat { if k == 0 then size else 2 * Doubled(size, k - 1) }

  /** Growth law: doubling from the initial size until the cap cuts it off. */
  lemma {:induction false} GrowthLaw(size: nat, max: nat, k: nat)
    ensures max == 0 ==> AfterGrowths(size, max, k) == Doubled(size, k)
    ensures size <= max ==>
              AfterGrowths(size, max, k) == if Doubled(size, k) <= max then Doubled(size, k) else max
    ensures 0 < max < size ==> AfterGrowths(size, max, k) == size
  {
    if k > 0 {
      GrowthLaw(size, max, k - 1);
    }
  }

  // ----- Size accounting

  /** The bytes reserved for a list of frames. */
  ghost function Bytes(fs: seq<Frame>): nat
    reads fs
  {
    if fs == [] then 0 else fs[0].Value().SlotSize() + Bytes(fs[1..])
  }

  lemma {:induction false} BytesIsSum(fs: seq<Frame>)
    ensures Bytes(fs) == Sum(Values(fs), SlotSizes())
    ensures Bytes(fs) == 0 <==> fs == []
  {
    if fs != [] {
      BytesIsSum(fs[1..]);
      assert Values(fs)[1..] == Values(fs[1..]);
    }
  }

  lemma {:induction false} BytesBack(fs: seq<Frame>, f: Frame)
    ensures Bytes(fs + [f]) == Bytes(fs) + f.Value().SlotSize()
  {
    if fs == [] {
      assert fs + [f] == [f] && [f][1..] == [];
    } else {
      assert (fs + [f])[1..] == fs[1..] + [f];
      BytesBack(fs[1..], f);
    }
  }

  lemma BytesFront(f: Frame, fs: seq<Frame>)
    ensures Bytes([f] + fs) == f.Value().SlotSize() + Bytes(fs)
  {
    assert ([f] + fs)[1..] == fs;
  }

  class FrameBuffer {
    var framePool: seq<Frame>
    var buffer: seq<Frame>
    var intermediateBuffer: seq<Frame>
    var totalAllocCount: nat
    /** The bytes the queued frames will need, kept up to date by every operation. */
    var bufferSize: nat
    var intermediateBufferSize: nat
    /** Zero means that the pool may grow without limit. */
    const maxAllocCount: nat

    ghost const initialSize: nat
    ghost var growths: nat
    /** Every frame ever allocated. */
    ghost var frames: set<Frame>
    ghost var loaned: set<Frame>

    /** Ownership: every frame is in exactly one place, once. */
    ghost predicate Owned()
      reads this
    {
      && Books(framePool, buffer, intermediateBuffer, loaned, frames)
      && |frames| == totalAllocCount
      && totalAllocCount == AfterGrowths(initialSize, maxAllocCount, growths)
    }

    /** Size accounting: the cached size is the sum over the queue. */
    ghost predicate Sized()
      reads this, buffer
    {
      bufferSize == Bytes(buffer)
    }

    ghost predicate Valid()
      reads this, buffer
    {
      Owned() && Sized()
    }

    /** No flush is under way. */
    ghost predicate Idle()
      reads this
    {
      intermediateBuffer == [] && intermediateBufferSize == 0
    }

    /** What a request may hand out beyond the pool's frames. */
    predicate CanGrow()
      reads this
    {
      maxAllocCount == 0 || totalAllocCount < maxAllocCount
    }

    /** The frames that can be lent before the queue has to give some back. */
    ghost function Free(): Capacity
      reads this
    {
      if maxAllocCount == 0 then Unbounded
      else Room(|framePool| + if totalAllocCount < maxAllocCount then maxAllocCount - totalAllocCount else 0)
    }

    constructor (size: nat, max: nat)
      ensures Valid() && Idle() && buffer == [] && loaned == {}
      ensures maxAllocCount == max && initialSize == size && growths == 0
      ensures |framePool| == totalAllocCount == size && fresh(frames)
    {
      bufferSize, intermediateBufferSize, maxAllocCount, totalAllocCount := 0, 0, max, 0;
      framePool, buffer, intermediateBuffer := [], [], [];
      initialSize, growths, frames, loaned := size, 0, {}, {};
      new;
      var pool := NewFrames(size);
      Allocate([], [], [], {}, {}, pool);
      framePool, totalAllocCount := [] + pool, size;
      frames := {} + set f | f in pool;
    }

    static method NewFrames(size: nat) returns (fs: seq<Frame>)
      ensures |fs| == size && Distinct(fs) && (forall i :: 0 <= i < |fs| ==> fresh(fs[i]) && fs[i].Zeroed())
    {
      fs := [];
      for i := 0 to size
        invariant |fs| == i && Distinct(fs) && (forall i :: 0 <= i < |fs| ==> fresh(fs[i]) && fs[i].Zeroed())
      {
        var f := new Frame();
        fs := fs + [f];
      }
    }

    /** Adds `size` zeroed frames to the pool. */
    method ResizePool(size: nat)
      requires Owned() && AfterGrowths(initialSize, maxAllocCount, growths + 1) == totalAllocCount + size
      modifies `framePool, `totalAllocCount, `frames, `growths
      ensures Owned() && growths == old(growths) + 1
      ensures totalAllocCount == old(totalAllocCount) + size
      ensures |framePool| == |old(framePool)| + size && old(framePool) <= framePool
      ensures forall i :: |old(framePool)| <= i < |framePool| ==> fresh(framePool[i]) && framePool[i].Zeroed()
      ensures old(frames) <= frames && fresh(frames - old(frames))
    {
      var pool := NewFrames(size);
      Allocate(framePool, buffer, intermediateBuffer, loaned, frames, pool);
      framePool := framePool + pool;
      totalAllocCount := totalAllocCount + size;
      frames := frames + set f | f in pool;
      growths := growths + 1;
    }

    /** Takes the newest frame out of the queue. */
    method RequestBufferBack() returns (r: Frame?)
      requires Valid()
      modifies `buffer, `bufferSize, `loaned
      ensures Valid()
      ensures old(buffer) == [] ==> r == null && buffer == [] && loaned == old(loaned)
      ensures old(buffer) != [] ==>
                && r != null && old(buffer) == buffer + [r]
                && r !in old(loaned) && loaned == old(loaned) + {r}
    {
      if buffer == [] {
        return null;
      }
      var n := |buffer| - 1;
      var f, rest := buffer[n], buffer[..n];
      assert buffer == rest + [f];
      BytesBack(rest, f);
      LendBack(framePool, rest, intermediateBuffer, loaned, frames, f);
      buffer, loaned := rest, loaned + {f};
      bufferSize := bufferSize - f.Value().SlotSize();
      r := f;
    }

    /** Takes the oldest frame out of the queue. */
    method RequestBufferFront() returns (r: Frame?)
      requires Valid()
      modifies `buffer, `bufferSize, `loaned
      ensures Valid()
      ensures old(buffer) == [] ==> r == null && buffer == [] && loaned == old(loaned)
      ensures old(buffer) != [] ==>
                && r != null && old(buffer) == [r] + buffer
                && r !in old(loaned) && loaned == old(loaned) + {r}
    {
      if buffer == [] {
        return null;
      }
      var f, rest := buffer[0], buffer[1..];
      assert buffer == [f] + rest;
      BytesFront(f, rest);
      Lend(framePool, buffer, intermediateBuffer, loaned, frames, f, framePool, rest, intermediateBuffer);
      buffer, loaned := rest, loaned + {f};
      bufferSize := bufferSize - f.Value().SlotSize();
      r := f;
    }

    /** A frame that could not be used goes back to the pool. */
    method InsertFramePool(frame: Frame)
      requires Owned() && frame in loaned
      modifies `framePool, `loaned
      ensures Owned()
      ensures framePool == old(framePool) + [frame] && loaned == old(loaned) - {frame}
    {
      TakeBack(framePool, buffer, intermediateBuffer, loaned, frames,
               frame, framePool + [frame], buffer, intermediateBuffer);
      framePool, loaned := framePool + [frame], loaned - {frame};
    }

    /** Queues a frame. */
    method InsertFrame(frame: Frame)
      requires Valid() && frame in loaned
      modifies `buffer, `bufferSize, `loaned
      ensures Valid() && bufferSize == old(bufferSize) + 5 + frame.len % 0x80 + frame.len / 0x80
      ensures buffer == old(buffer) + [frame] && loaned == old(loaned) - {frame}
    {
      TakeBack(framePool, buffer, intermediateBuffer, loaned, frames,
               frame, framePool, buffer + [frame], intermediateBuffer);
      BytesBack(buffer, frame);
      buffer, loaned := buffer + [frame], loaned - {frame};
      bufferSize := bufferSize + frame.Value().SlotSize();
    }

    /** Puts a frame back to the head of the queue. */
    method ReturnFrame(frame: Frame)
      requires Valid() && frame in loaned
      modifies `buffer, `bufferSize, `loaned
      ensures Valid() && bufferSize == old(bufferSize) + 5 + frame.len % 0x80 + frame.len / 0x80
      ensures buffer == [frame] + old(buffer) && loaned == old(loaned) - {frame}
    {
      TakeBack(framePool, buffer, intermediateBuffer, loaned, frames,
               frame, framePool, [frame] + buffer, intermediateBuffer);
      BytesFront(frame, buffer);
      buffer, loaned := [frame] + buffer, loaned - {frame};
      bufferSize := bufferSize + frame.Value().SlotSize();
    }

    /** Lends the head of the pool. */
    method TakeFromPool() returns (r: Frame)
      requires Owned() && framePool != []
      modifies `framePool, `loaned
      ensures Owned()
      ensures old(framePool) == [r] + framePool
      ensures r !in old(loaned) && loaned == old(loaned) + {r}
    {
      r := framePool[0];
      assert framePool == [r] + framePool[1..];
      Lend(framePool, buffer, intermediateBuffer, loaned, frames, r, framePool[1..], buffer, intermediateBuffer);
      framePool, loaned := framePool[1..], loaned + {r};
    }

    /** Lends a free frame, growing the pool if it is empty. At the cap the newest queued
        frame is taken instead, or none. A pool that never had a frame cannot grow. */
    method RequestFrame(overwriteLast: bool) returns (r: Frame?)
      requires Valid() && totalAllocCount > 0
      modifies `framePool, `buffer, `bufferSize, `totalAllocCount, `growths, `frames, `loaned
      ensures Valid() && totalAllocCount >= old(totalAllocCount)
      ensures old(frames) <= frames && fresh(frames - old(frames))
      ensures loaned == if r == null then old(loaned) else old(loaned) + {r}
      ensures r != null ==> r !in old(loaned)
      ensures old(framePool) != [] ==>
                r != null && old(framePool) == [r] + framePool && buffer == old(buffer) && growths == old(growths)
      ensures old(framePool) == [] && old(CanGrow()) ==>
                && r != null && fresh(r) && r.Zeroed() && buffer == old(buffer)
                && growths == old(growths) + 1 && |framePool| + 1 == totalAllocCount - old(totalAllocCount)
      ensures Free() == Used(old(Free()), 1)
      ensures old(framePool) == [] && !old(CanGrow()) ==>
                && framePool == [] && growths == old(growths)
                && (if overwriteLast && old(buffer) != [] then r != null && old(buffer) == buffer + [r]
                    else r == null && buffer == old(buffer))
    {
      if framePool == [] {
        var resized := GrowPool();
        if !resized && !overwriteLast {
          return null;
        } else if !resized {
          r := RequestBufferBack();
          return;
        }
      }
      ghost var pool := framePool;
      r := TakeFromPool();
      assert pool[0] == r;
    }

    /** Grows an empty pool unless the cap is reached. */
    method GrowPool() returns (resized: bool)
      requires Owned() && framePool == [] && totalAllocCount > 0
      modifies `framePool, `totalAllocCount, `growths, `frames
      ensures Owned() && resized == old(CanGrow())
      ensures old(frames) <= frames && fresh(frames - old(frames))
      ensures forall i :: 0 <= i < |framePool| ==> fresh(framePool[i]) && framePool[i].Zeroed()
      ensures |framePool| == totalAllocCount - old(totalAllocCount)
      ensures resized ==> totalAllocCount == if maxAllocCount == 0 || 2 * old(totalAllocCount) <= maxAllocCount
                                             then 2 * old(totalAllocCount) else maxAllocCount
      ensures if resized then framePool != [] && growths == old(growths) + 1
              else framePool == [] && growths == old(growths)
    {
      if maxAllocCount > 0 {
        if maxAllocCount <= totalAllocCount {
          return false;
        }
        ResizePool(if maxAllocCount - totalAllocCount < totalAllocCount
                   then maxAllocCount - totalAllocCount else totalAllocCount);
      } else {
        ResizePool(totalAllocCount);
      }
      resized := true;
    }

    /** Exchanges the queue and the intermediate list, and their sizes. The queue's new size is
        right exactly if the intermediate list's was. */
    method SwapBuffers()
      requires Owned()
      modifies `buffer, `bufferSize, `intermediateBuffer, `intermediateBufferSize
      ensures Owned()
      ensures buffer == old(intermediateBuffer) && bufferSize == old(intermediateBufferSize)
      ensures intermediateBuffer == old(buffer) && intermediateBufferSize == old(bufferSize)
    {
      Transfer(framePool, buffer, intermediateBuffer, loaned, frames, framePool, intermediateBuffer, buffer);
      bufferSize, intermediateBufferSize := intermediateBufferSize, bufferSize;
      buffer, intermediateBuffer := intermediateBuffer, buffer;
    }

    /** Sorts the intermediate list by masked identifier, keeping the order of equals. */
    method SortIntermediateBuffer()
      requires Owned()
      modifies `intermediateBuffer
      ensures Owned()
      ensures multiset(intermediateBuffer) == multiset(old(intermediateBuffer))
      ensures Values(intermediateBuffer) == Sort(old(Values(intermediateBuffer)), Keys())
      ensures forall i, j :: 0 <= i < j < |intermediateBuffer| ==>
                MaskedId(intermediateBuffer[i].id) <= MaskedId(intermediateBuffer[j].id)
    {
      var sorted := SortFrames(intermediateBuffer, Keys());
      SortedObjects(sorted, Values(intermediateBuffer));
      Transfer(framePool, buffer, intermediateBuffer, loaned, frames, framePool, buffer, sorted);
      intermediateBuffer := sorted;
    }

    /** The order of the values is that of the comparison of masked identifiers. */
    static lemma SortedObjects(sorted: seq<Frame>, vs: seq<CanFrame>)
      requires Values(sorted) == Sort(vs, Keys())
      ensures forall i, j :: 0 <= i < j < |sorted| ==> MaskedId(sorted[i].id) <= MaskedId(sorted[j].id)
    {
      SortIsSorted(vs, Keys());
      ValuesAt(sorted);
      forall i, j | 0 <= i < j < |sorted| ensures MaskedId(sorted[i].id) <= MaskedId(sorted[j].id) {
        assert Keys()(Values(sorted)[i]) <= Keys()(Values(sorted)[j]);
      }
    }

    /** list::sort */
    static method SortFrames(fs: seq<Frame>, key: CanFrame -> nat) returns (sorted: seq<Frame>)
      ensures multiset(sorted) == multiset(fs)
      ensures Values(sorted) == Sort(Values(fs), key)
    {
      sorted := [];
      ghost var vs := Values(fs);
      ValuesAt(fs);
      var i := 0;
      while i < |fs|
        invariant 0 <= i <= |fs|
        invariant multiset(sorted) == multiset(fs[..i])
        invariant Values(sorted) == Sort(vs[..i], key)
      {
        PrefixMultiset(fs, i);
        SortNext(vs, key, i);
        sorted := InsertSorted(sorted, fs[i], key);
        i := i + 1;
      }
      assert fs[..i] == fs && vs[..i] == vs;
    }

    static method InsertSorted(fs: seq<Frame>, f: Frame, key: CanFrame -> nat) returns (r: seq<Frame>)
      ensures multiset(r) == multiset(fs) + multiset{f}
      ensures Values(r) == Insert(Values(fs), f.Value(), key)
    {
      ghost var vs := Values(fs);
      ValuesAt(fs);
      var j := |fs|;
      while j > 0 && key(fs[j - 1].Value()) > key(f.Value())
        invariant 0 <= j <= |fs|
        invariant forall i :: j <= i < |fs| ==> key(vs[i]) > key(f.Value())
      {
        j := j - 1;
      }
      r := fs[..j] + [f] + fs[j..];
      InsertAt(vs, f.Value(), key, j);
      PutInMultiset(fs, f, j);
      ValuesAround(fs, f, j);
    }

    static lemma ValuesAround(fs: seq<Frame>, f: Frame, j: nat)
      requires j <= |fs|
      ensures Values(fs[..j] + [f] + fs[j..]) == Values(fs)[..j] + [f.Value()] + Values(fs)[j..]
    {
      ValuesSplit(fs, j);
      ValuesAppend(fs[..j], f);
      ValuesConcat(fs[..j] + [f], fs[j..]);
    }

    /** The frames of a finished flush become free. */
    method MergeIntermediateBuffer()
      requires Owned()
      modifies `framePool, `intermediateBuffer, `intermediateBufferSize
      ensures Owned() && Idle()
      ensures framePool == old(framePool) + old(intermediateBuffer)
    {
      Transfer(framePool, buffer, intermediateBuffer, loaned, frames, framePool + intermediateBuffer, buffer, []);
      framePool, intermediateBuffer := framePool + intermediateBuffer, [];
      intermediateBufferSize := 0;
    }

    /** Moves the frames from `start` on back to the queue, one by one to its head: they come
        back reversed. The size of the intermediate list is left as it was. */
    method ReturnIntermediateBuffer(start: nat)
      requires Valid() && start <= |intermediateBuffer|
      modifies `buffer, `bufferSize, `intermediateBuffer, `loaned
      ensures Valid() && loaned == old(loaned)
      ensures intermediateBuffer == old(intermediateBuffer)[..start]
      ensures buffer == Reverse(old(intermediateBuffer)[start..]) + old(buffer)
    {
      ghost var head, rest, done := intermediateBuffer[..start], intermediateBuffer[start..], [];
      while start < |intermediateBuffer|
        invariant Valid() && loaned == old(loaned)
        invariant |head| == start && intermediateBuffer == head + rest
        invariant buffer == done + old(buffer)
        invariant Reverse(old(intermediateBuffer)[start..]) == Reverse(rest) + done
        decreases |rest|
      {
        EraseInTail(head, rest);
        ReverseMoves(rest, done, old(buffer));
        ReturnOne(start);
        rest, done := rest[1..], [rest[0]] + done;
      }
    }

    /** list::erase at `i`, then the frame goes to the head of the queue. */
    method ReturnOne(i: nat)
      requires Valid() && i < |intermediateBuffer|
      modifies `buffer, `bufferSize, `intermediateBuffer, `loaned
      ensures Valid() && loaned == old(loaned)
      ensures intermediateBuffer == old(intermediateBuffer)[..i] + old(intermediateBuffer)[i + 1..]
      ensures buffer == [old(intermediateBuffer)[i]] + old(buffer)
    {
      var x := intermediateBuffer[i];
      var rest := intermediateBuffer[..i] + intermediateBuffer[i + 1..];
      assert intermediateBuffer == intermediateBuffer[..i] + [x] + intermediateBuffer[i + 1..];
      Lend(framePool, buffer, intermediateBuffer, loaned, frames, x, framePool, buffer, rest);
      intermediateBuffer, loaned := rest, loaned + {x};
      ReturnFrame(x);
    }

    static lemma EraseInTail(head: seq<Frame>, tail: seq<Frame>)
      requires tail != []
      ensures (head + tail)[|head|] == tail[0]
      ensures (head + tail)[..|head|] + (head + tail)[|head| + 1..] == head + tail[1..]
    {
    }

    static lemma ReverseMoves(rest: seq<Frame>, done: seq<Frame>, tail: seq<Frame>)
      requires rest != []
      ensures Reverse(rest) + done == Reverse(rest[1..]) + ([rest[0]] + done)
      ensures [rest[0]] + (done + tail) == ([rest[0]] + done) + tail
    {
      Associative(Reverse(rest[1..]), [rest[0]], done);
      Associative([rest[0]], done, tail);
    }

    /** Everything that is not on loan becomes free. */
    method Reset()
      requires Owned()
      modifies `framePool, `buffer, `bufferSize, `intermediateBuffer, `intermediateBufferSize
      ensures Valid() && Idle() && buffer == []
      ensures framePool == old(framePool) + old(intermediateBuffer) + old(buffer)
    {
      Transfer(framePool, buffer, intermediateBuffer, loaned, frames,
               framePool + intermediateBuffer + buffer, [], []);
      framePool := framePool + intermediateBuffer + buffer;
      buffer, intermediateBuffer := [], [];
      bufferSize, intermediateBufferSize := 0, 0;
    }
  }
}
