/** Clients of the flag-based ring buffer: the scenarios of the unit tests in
    src/UnitTest/TestRingBuffer.cpp, and a driver for arbitrary call sequences.
    Those tests catch overflow_error and underflow_error; this generation
    throws out_of_range in both cases, which is what the scenarios report. */
module FlagClient {
  import opened Outcomes
  import Fifo
  import opened FlagRing

  /** A client that issues the calls ops one after the other and catches
      every exception. The buffer behaves as the bounded FIFO queue of
      Fifo.Replay with bound bufferSize (every slot in use when full) across
      any number of wraparounds: what it pops, followed by what is left, is
      what was there, followed by what it pushed. */
  method Drive<T>(b: RingBuffer<T>, ops: seq<Fifo.Op<T>>) returns (pushed: seq<T>, popped: seq<T>)
    requires b.Valid()
    modifies b, b.buffer
    ensures b.Valid() && b.buffer == old(b.buffer) && b.bufferSize == old(b.bufferSize)
    ensures Fifo.Replay(old(b.Contents()), b.bufferSize, ops) == Fifo.Run(b.Contents(), pushed, popped)
    ensures popped + b.Contents() == old(b.Contents()) + pushed
    ensures b.GetSize() == old(b.GetSize()) + |pushed| - |popped|
  {
    ghost var start := b.Contents();
    pushed, popped := [], [];
    for k := 0 to |ops|
      invariant b.Valid() && b.buffer == old(b.buffer) && b.bufferSize == old(b.bufferSize)
      invariant Fifo.Replay(start, b.bufferSize, ops[..k]) == Fifo.Run(b.Contents(), pushed, popped)
    {
      Fifo.ReplaySnoc(start, b.bufferSize, ops[..k], ops[k]);
      assert ops[..k + 1] == ops[..k] + [ops[k]];
      match ops[k]
      case Push(x) =>
        var o := b.Push(x);
        if o.Pass? {
          pushed := pushed + [x];
        }
      case Pop =>
        var v := b.Pop();
        if v.Ok? {
          popped := popped + [v.value];
        }
    }
    assert ops[..|ops|] == ops;
    Fifo.ReplayIsFifo(start, b.bufferSize, ops);
  }

  /** The filling loops of the tests: push the given values one after the
      other, reading getSize and empty after each push; when they fit, every
      push succeeds, the values are appended in order, and the buffer is
      never empty after a push. */
  method Fill<T>(b: RingBuffer<T>, values: seq<T>) returns (sizes: seq<nat>, empties: seq<bool>)
    requires b.Valid() && b.GetSize() + |values| <= b.GetCapacity()
    modifies b, b.buffer
    ensures b.Valid() && b.buffer == old(b.buffer) && b.bufferSize == old(b.bufferSize)
    ensures b.Contents() == old(b.Contents()) + values
    ensures var n := old(b.GetSize()); sizes == seq(|values|, j => n + j + 1)
    ensures empties == seq(|values|, _ => false)
  {
    ghost var start := b.Contents();
    sizes, empties := [], [];
    for i := 0 to |values|
      invariant b.Valid() && b.buffer == old(b.buffer) && b.bufferSize == old(b.bufferSize)
      invariant b.Contents() == start + values[..i]
      invariant sizes == seq(i, j => |start| + j + 1)
      invariant empties == seq(i, _ => false)
    {
      var o := b.Push(values[i]);
      assert values[..i + 1] == values[..i] + [values[i]];
      sizes, empties := sizes + [b.GetSize()], empties + [b.Empty()];
    }
    assert values[..|values|] == values;
  }

  /** The draining loops of the tests: pop as many times as the buffer holds
      elements, reading empty before each pop and getSize after it; the
      buffer is never empty before a pop, the values come back in the order
      they were pushed, and the size counts down to 0. */
  method Drain<T>(b: RingBuffer<T>) returns (popped: seq<T>, sizes: seq<nat>, empties: seq<bool>)
    requires b.Valid()
    modifies b
    ensures b.Valid() && b.buffer == old(b.buffer) && b.bufferSize == old(b.bufferSize)
    ensures b.Contents() == [] && popped == old(b.Contents())
    ensures sizes == seq(|popped|, j => |popped| - (j + 1))
    ensures empties == seq(|popped|, _ => false)
  {
    ghost var start := b.Contents();
    var n := b.GetSize();
    popped, sizes, empties := [], [], [];
    for i := 0 to n
      invariant b.Valid() && b.buffer == old(b.buffer) && b.bufferSize == old(b.bufferSize)
      invariant b.Contents() == start[i..] && popped == start[..i]
      invariant sizes == seq(i, j => n - (j + 1))
      invariant empties == seq(i, _ => false)
    {
      empties := empties + [b.Empty()];
      var v := b.Pop();
      popped := popped + [v.value];
      sizes := sizes + [b.GetSize()];
    }
  }

  /** The OverflowUnderflow unit test, capacity 5: five pushes fill the
      buffer, a sixth fails, five pops return 0 to 4, a sixth fails; then two
      pushes and two pops move both cursors to slot 2, and the same again,
      with a filling that wraps around the end of the block. */
  method OverflowUnderflowScenario() returns (first: seq<int>, second: seq<int>, failures: seq<Error>)
    ensures first == seq(5, j => j) && second == seq(5, j => j)
    ensures failures == [OutOfRange, OutOfRange, OutOfRange, OutOfRange]
  {
    var b := new RingBuffer<int>(5, 0);
    var sizes, empties := Fill(b, seq(5, j => j));
    var full := b.Push(5);
    first, sizes, empties := Drain(b);
    var empty := b.Pop();
    failures := [full.error, empty.error];
    sizes, empties := Fill(b, [0, 1]);
    var popped;
    popped, sizes, empties := Drain(b);
    sizes, empties := Fill(b, seq(5, j => j));
    full := b.Push(5);
    second, sizes, empties := Drain(b);
    empty := b.Pop();
    failures := failures + [full.error, empty.error];
  }

  /** The Capacity unit test: a requested capacity of 0 gives the default
      capacity, 1024, and a buffer of capacity 512 reports 512. */
  method CapacityScenario() returns (defaulted: nat, requested: nat)
    ensures defaulted == 1024 && requested == 512
  {
    var b := new RingBuffer<char>(0, ' ');
    defaulted := b.GetCapacity();
    b := new RingBuffer<char>(512, ' ');
    requested := b.GetCapacity();
  }

  /** The Empty unit test, capacity 5: empty at first; not empty after each
      of three pushes, nor before each of the three pops that follow; empty
      after them; not empty after five pushes; empty after five pops. */
  method EmptyScenario() returns (atStart: bool, afterPushes: seq<bool>, beforePops: seq<bool>,
                                  drainedThree: bool, afterFive: bool, drainedFive: bool)
    ensures atStart && afterPushes == [false, false, false] && beforePops == [false, false, false]
    ensures drainedThree && !afterFive && drainedFive
  {
    var b := new RingBuffer<char>(5, ' ');
    atStart := b.Empty();
    var sizes, popped, empties;
    sizes, afterPushes := Fill(b, ['a', 'a', 'a']);
    popped, sizes, beforePops := Drain(b);
    drainedThree := b.Empty();
    sizes, empties := Fill(b, ['b', 'b', 'b', 'b', 'b']);
    afterFive := b.Empty();
    popped, sizes, empties := Drain(b);
    drainedFive := b.Empty();
  }

  /** The GetSize unit test, capacity 20: the size is 0 at first, after each
      of five pushes 1 to 5, after each of five pops 4 down to 0, after each
      of twenty pushes 1 to 20 (the last one fills the buffer, wrapped around
      the end of the block), after each of twenty pops 19 down to 0. */
  method GetSizeScenario() returns (atStart: nat, up: seq<nat>, down: seq<nat>,
                                    upFull: seq<nat>, downFull: seq<nat>)
    ensures atStart == 0
    ensures up == seq(5, j => j + 1) && down == seq(5, j => 4 - j)
    ensures upFull == seq(20, j => j + 1) && downFull == seq(20, j => 19 - j)
  {
    var b := new RingBuffer<char>(20, ' ');
    atStart := b.GetSize();
    var popped, empties;
    up, empties := Fill(b, seq(5, _ => 'b'));
    popped, down, empties := Drain(b);
    upFull, empties := Fill(b, seq(20, _ => 'a'));
    popped, downFull, empties := Drain(b);
  }

  /** Copying a full buffer: a buffer of capacity 1 holding 42 is copied; the
      copy reports size 1 and full, but its only element is the value a
      fresh slot holds (here 0), not 42. */
  method FullCopyScenario() returns (size: nat, head: int)
    ensures size == 1 && head == 0
  {
    var b := new RingBuffer<int>(1, 0);
    var o := b.Push(42);
    var c := new RingBuffer<int>.Copy(b);
    size := c.GetSize();
    var v := c.Pop();
    head := v.value;
  }
}
