/** Clients of the sentinel-slot ring buffer: the scenarios of RingBufferTest.cpp,
    and a driver for arbitrary call sequences. */
module SentinelClient {
  import opened Outcomes
  import Fifo
  import opened SentinelRing

  /** A client that issues the calls ops one after the other and catches
      every exception. The buffer behaves as the bounded FIFO queue of
      Fifo.Replay with bound GetCapacity(), across any number of
      wraparounds: what it pops, followed by what is left, is what was there,
      followed by what it pushed. */
  method Drive<T>(b: RingBuffer<T>, ops: seq<Fifo.Op<T>>) returns (pushed: seq<T>, popped: seq<T>)
    requires b.Valid()
    modifies b, b.buffer
    ensures b.Valid() && b.buffer == old(b.buffer) && b.bufferSize == old(b.bufferSize)
    ensures Fifo.Replay(old(b.Contents()), b.GetCapacity(), ops) == Fifo.Run(b.Contents(), pushed, popped)
    ensures popped + b.Contents() == old(b.Contents()) + pushed
    ensures b.GetSize() == old(b.GetSize()) + |pushed| - |popped|
  {
    ghost var start := b.Contents();
    pushed, popped := [], [];
    for k := 0 to |ops|
      invariant b.Valid() && b.buffer == old(b.buffer) && b.bufferSize == old(b.bufferSize)
      invariant Fifo.Replay(start, b.GetCapacity(), ops[..k]) == Fifo.Run(b.Contents(), pushed, popped)
    {
      Fifo.ReplaySnoc(start, b.GetCapacity(), ops[..k], ops[k]);
      assert ops[..k + 1] == ops[..k] + [ops[k]];
      match ops[k]
      case Push(x) =>
        var o := b.Push(x);
        if o.Pass? {
          pushed := pushed + [x];
        }
      case Pop =>
        var v := b.Pop();
        if v.Ok? {
          popped := popped + [v.value];
        }
    }
    assert ops[..|ops|] == ops;
    Fifo.ReplayIsFifo(start, b.GetCapacity(), ops);
  }

  /** The filling loops of the tests: push the given values one after the
      other, reading getSize after each push; when they fit, every push
      succeeds and the values are appended in order. */
  method Fill<T>(b: RingBuffer<T>, values: seq<T>) returns (sizes: seq<nat>)
    requires b.Valid() && b.GetSize() + |values| <= b.GetCapacity()
    modifies b, b.buffer
    ensures b.Valid() && b.buffer == old(b.buffer) && b.bufferSize == old(b.bufferSize)
    ensures b.Contents() == old(b.Contents()) + values
    ensures var n := old(b.GetSize()); sizes == seq(|values|, j => n + j + 1)
  {
    ghost var start := b.Contents();
    sizes := [];
    for i := 0 to |values|
      invariant b.Valid() && b.buffer == old(b.buffer) && b.bufferSize == old(b.bufferSize)
      invariant b.Contents() == start + values[..i]
      invariant sizes == seq(i, j => |start| + j + 1)
    {
      var o := b.Push(values[i]);
      assert values[..i + 1] == values[..i] + [values[i]];
      sizes := sizes + [b.GetSize()];
    }
    assert values[..|values|] == values;
  }

  /** The draining loop of the tests: pop as many times as the buffer holds
      elements and read getSize after each pop; the values come back in the
      order they were pushed and the size counts down to 0. */
  method Drain<T>(b: RingBuffer<T>) returns (popped: seq<T>, sizes: seq<nat>)
    requires b.Valid()
    modifies b
    ensures b.Valid() && b.buffer == old(b.buffer) && b.bufferSize == old(b.bufferSize)
    ensures b.Contents() == [] && popped == old(b.Contents())
    ensures sizes == seq(|popped|, j => |popped| - (j + 1))
  {
    ghost var start := b.Contents();
    var n := b.GetSize();
    popped, sizes := [], [];
    for i := 0 to n
      invariant b.Valid() && b.buffer == old(b.buffer) && b.bufferSize == old(b.bufferSize)
      invariant b.Contents() == start[i..] && popped == start[..i]
      invariant sizes == seq(i, j => n - (j + 1))
    {
      var v := b.Pop();
      popped := popped + [v.value];
      sizes := sizes + [b.GetSize()];
    }
  }

  /** The first part of RingBufferTest.cpp, capacity 13: the new buffer is
      empty with capacity 13, thirteen pushes fill the buffer, a fourteenth overflows, a copy of the full buffer has size
      13 and capacity 13, thirteen pops return 0 to 12, a further pop
      underflows, and the buffer is empty again. */
  method SmokeScenario() returns (emptyAtStart: bool, capacity: nat, copySize: nat, copyCapacity: nat,
                                  drained: seq<nat>, overflow: Outcome, underflow: Result<nat>,
                                  emptyAfter: bool)
    ensures emptyAtStart && capacity == 13
    ensures copySize == 13 && copyCapacity == 13
    ensures drained == seq(13, j => j)
    ensures overflow == Fail(Overflow) && underflow == Err(Underflow) && emptyAfter
  {
    var b := new RingBuffer<nat>(13, 0);
    emptyAtStart, capacity := b.Empty(), b.GetCapacity();
    var sizes := Fill(b, seq(13, j => j));
    overflow := b.Push(13);
    var other := new RingBuffer<nat>.Copy(b);
    copySize, copyCapacity := other.GetSize(), other.GetCapacity();
    drained, sizes := Drain(b);
    underflow := b.Pop();
    emptyAfter := b.Empty();
  }

  /** The size 1 part of RingBufferTest.cpp: capacity 1, a push of 42
      succeeds, a second push overflows, a pop returns 42, a second pop
      underflows. */
  method CapacityOneScenario() returns (capacity: nat, first: Outcome, second: Outcome,
                                        firstPop: Result<nat>, secondPop: Result<nat>)
    ensures capacity == 1
    ensures first == Pass && second == Fail(Overflow)
    ensures firstPop == Ok(42) && secondPop == Err(Underflow)
  {
    var b := new RingBuffer<nat>(1, 0);
    capacity := b.GetCapacity();
    first := b.Push(42);
    second := b.Push(0);
    firstPop := b.Pop();
    secondPop := b.Pop();
  }

  /** The ring property part of RingBufferTest.cpp, capacity 10: five pushes
      and five pops leave size 0 with both cursors at slot 5; ten pushes then
      wrap around the end of the block with sizes 1 to 10, an eleventh push
      overflows, ten pops return 0 to 9 with sizes 9 down to 0, and a further
      pop underflows. */
  method RingPropertyScenario() returns (emptied: nat, up: seq<nat>, overflow: Outcome,
                                         drained: seq<nat>, down: seq<nat>, underflow: Result<nat>)
    ensures emptied == 0
    ensures up == seq(10, j => j + 1)
    ensures overflow == Fail(Overflow)
    ensures drained == seq(10, j => j) && down == seq(10, j => 10 - (j + 1))
    ensures underflow == Err(Underflow)
  {
    var b := new RingBuffer<nat>(10, 0);
    var sizes := Fill(b, seq(5, j => j));
    var popped;
    popped, sizes := Drain(b);
    emptied := b.GetSize();
    up := Fill(b, seq(10, j => j));
    overflow := b.Push(42);
    drained, down := Drain(b);
    underflow := b.Pop();
  }
}
