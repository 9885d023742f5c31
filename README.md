# Ring buffer model

This project models the fixed-capacity first-in-first-out ring buffer
`RingBuffer<T>` in its two generations and proves what their operations do.
Each generation has a read cursor `r`, a write cursor `w`, a slot count
`bufferSize` and an owned block of slots.

- `src/RB/RingBuffer.inl` (namespace `RB`) is the flag-based buffer. All
  `bufferSize` slots are usable, and an `isEmpty` flag tells the empty
  buffer (`r == w`, flag set) from the full one (`r == w`, flag clear). It
  also offers unchecked `operator[]` and checked `at`. Its errors are
  `out_of_range`. Module `FlagRing`.
- `RingBuffer/RingBuffer.inl` is the sentinel-slot buffer. A capacity of `c`
  allocates `c + 1` slots and one of them is never filled, so `r == w`
  always means empty. Its `checkOverflow` tests a three-way disjunction. Its
  errors are `overflow_error` and `underflow_error`. Module `SentinelRing`.

Both buffers are Dafny classes with fields `r`, `w`, `bufferSize` (and
`isEmpty` for the flag-based one) and an `array<T>` field `buffer`. `push`
and `pop` are methods that update the fields; `push` writes the array in
place, `pop` only reads it.
The read-only queries (`getSize`, `empty`, `getCapacity`, the checks,
`operator[]`, `at`) are functions. `copyRingBuffer` is a method with the
source's cursor loop over a fresh array. The copy constructor is a named
constructor `Copy`.

The abstract value of a buffer is the ghost function `Contents()`: element
`i` is the slot `(r + i) % bufferSize`, for `i` below `getSize()`. Every
method's contract ties its result and the new `Contents()` to the old one.
A thrown exception is modelled as a returned value: `Outcome` for the checks
and for `push`, `Result<T>` for `pop` and `at` (module `Outcomes`).

Shared modules:

- `RingIndex` holds the index arithmetic both buffers use. `Span` is the
  expression `getSize` evaluates on a non-empty buffer. `Window` is the
  logical view of the slots. The lemmas say how a step of either cursor
  changes both.
- `Fifo` is an independent reference definition of a bounded FIFO queue,
  `Replay`. Its lemma `ReplayIsFifo` says values leave in the order they
  entered.
- `FlagClient` and `SentinelClient` drive the buffers. `Drive` runs any
  sequence of pushes and pops and proves the buffer agrees with `Replay`.
  The scenario methods replay the test programs `RingBufferTest.cpp` and
  `src/UnitTest/TestRingBuffer.cpp`. Each returns the values its test
  checks, and its contract states the expected ones; the `Model` rows name
  those checks.

`RING_BUFFER_DEFAULT_CAPACITY` is 1024 (`src/RB/RingBuffer.hpp:5`).
`RingBuffer/RingBuffer.hpp` is not available; its
`RING_BUFFER_DEFAULT_CAPACITY` is assumed to be 1024 as well. `SIZE_MAX` is
taken as 2^64 - 1.

## Model

| member | source | states |
|---|---|---|
| `FlagRing.RingBuffer.GetSize` | src/RB/RingBuffer.inl:114-125 | The size is at most `bufferSize`. It is 0 exactly when the flag is set, and it is `bufferSize` exactly when the flag is clear and the cursors meet. `w` lies that many slots past `r`, modulo `bufferSize`. |
| `FlagRing.RingBuffer.Empty` | src/RB/RingBuffer.inl:102-106 | `empty()` is true exactly when the size is 0. |
| `FlagRing.RingBuffer.GetCapacity` | src/RB/RingBuffer.inl:108-112 | The capacity is the length of the block, and the size never exceeds it. |
| `FlagRing.RingBuffer.CheckPush` | src/RB/RingBuffer.inl:127-134 | `checkPush` fails exactly when the size equals the capacity, and the error is `out_of_range`. |
| `FlagRing.RingBuffer.CheckPop` | src/RB/RingBuffer.inl:136-143 | `checkPop` fails exactly when the size is 0, and the error is `out_of_range`. |
| `FlagRing.RingBuffer.Get` | src/RB/RingBuffer.inl:85-89 | `operator[](i)` reads without a check; for `i` below the size it returns element `i` of the contents. |
| `FlagRing.RingBuffer.At` | src/RB/RingBuffer.inl:91-100 | `at(i)` fails with `out_of_range` exactly when `i >= getSize()`; otherwise it returns element `i` of the contents. |
| `FlagRing.RingBuffer.constructor` | src/RB/RingBuffer.inl:6-22 | A requested capacity of 0 becomes 1024 and any other is kept. The new buffer is empty, with `r == w == 0` and the flag set. |
| `FlagRing.RingBuffer.Push` | src/RB/RingBuffer.inl:39-67 | `push` fails exactly when the buffer is full, and then changes nothing. Otherwise the value is appended to the contents and the size grows by one. `w` advances one slot modulo `bufferSize`, `r` stays, and the flag clears. |
| `FlagRing.RingBuffer.Pop` | src/RB/RingBuffer.inl:69-83 | `pop` fails exactly when the buffer is empty, and then changes nothing. Otherwise it returns the oldest element and the contents lose their head. `r` advances one slot, `w` stays, and the flag is set exactly when the size was 1. |
| `FlagRing.RingBuffer.CopyRingBuffer` | src/RB/RingBuffer.inl:145-164 | As written, the copy has the source's slot count, `r == 0`, the source's flag and the source's size. A non-full source is copied unwrapped from slot 0, with `w` equal to the size. For a full source the loop never runs: `w == 0` and the copy holds only fresh slots. |
| `FlagRing.RingBuffer.CopyRingBufferCorrected` | src/RB/RingBuffer.inl:145-164 | With the loop run `getSize()` times, the copy holds exactly the source's contents in every case, full or not. |
| `FlagRing.RingBuffer.Copy` | src/RB/RingBuffer.inl:24-30 | The copy constructor has the same outcome as `CopyRingBuffer` on a fresh object. |
| `FlagClient.Drive` | src/RB/RingBuffer.inl:39-83 | Any sequence of pushes and pops, each failure caught, acts on the contents as `Fifo.Replay` with bound `bufferSize`. What was popped, followed by what is left, is what was there, followed by what was pushed. The size changes by the accepted pushes minus the accepted pops. |
| `FlagClient.Fill` | src/UnitTest/TestRingBuffer.cpp:146-150 | Pushes that fit all succeed and append in order. The size after each push is one more than before it, and `empty()` after each push is false. |
| `FlagClient.Drain` | src/UnitTest/TestRingBuffer.cpp:152-156 | Popping `getSize()` times returns the contents in order and empties the buffer. `empty()` before each pop is false, and the sizes after the pops count down to 0. |
| `FlagClient.OverflowUnderflowScenario` | src/UnitTest/TestRingBuffer.cpp:10-82 | In both rounds, the second one wrapped around, five pops return 0 to 4. The sixth push and the sixth pop of each round fail with `out_of_range`. |
| `FlagClient.CapacityScenario` | src/UnitTest/TestRingBuffer.cpp:84-91 | The capacity is 1024 for a request of 0 and 512 for a request of 512. |
| `FlagClient.EmptyScenario` | src/UnitTest/TestRingBuffer.cpp:93-126 | All ten `empty()` checks: true at first, false after each of three pushes and before each of the three pops, true after them, false after five pushes, true after five pops. |
| `FlagClient.GetSizeScenario` | src/UnitTest/TestRingBuffer.cpp:128-157 | The size is 0 at first, and the sizes read after each push and each pop are those the test expects, including the run that fills all 20 slots. |
| `FlagClient.FullCopyScenario` | src/RB/RingBuffer.inl:153-162 | The copy of a full buffer of capacity 1 holding 42 reports size 1, but pops a fresh slot's value (0), not 42. |
| `SentinelRing.AdjustedCapacity` | RingBuffer/RingBuffer.inl:11-26 | A request of 0 becomes 1024 and `SIZE_MAX` becomes `SIZE_MAX - 1`; any other request is kept. The result is at least 1 and below `SIZE_MAX`. |
| `SentinelRing.OverflowGuardIsFull` | RingBuffer/RingBuffer.inl:109-118 | Inside a valid buffer the first clause of the `checkOverflow` test never holds. The whole test is equivalent to `(w + 1) % bufferSize == r`, and to the cursors differing with `bufferSize - 1` elements held. |
| `SentinelRing.RingBuffer.GetSize` | RingBuffer/RingBuffer.inl:96-107 | The size is below `bufferSize` and is 0 exactly when `r == w`. `w` lies that many slots past `r`, modulo `bufferSize`. |
| `SentinelRing.RingBuffer.Empty` | RingBuffer/RingBuffer.inl:84-88 | `empty()` is true exactly when the size is 0. |
| `SentinelRing.RingBuffer.GetCapacity` | RingBuffer/RingBuffer.inl:90-94 | The capacity is one less than the block length, and the size never exceeds it. |
| `SentinelRing.RingBuffer.CheckOverflow` | RingBuffer/RingBuffer.inl:109-118 | `checkOverflow` fails exactly when the size equals the capacity, and the error is `overflow_error`. |
| `SentinelRing.RingBuffer.CheckUnderflow` | RingBuffer/RingBuffer.inl:120-127 | `checkUnderflow` fails exactly when the size is 0, and the error is `underflow_error`. |
| `SentinelRing.RingBuffer.constructor` | RingBuffer/RingBuffer.inl:6-30 | The capacity is the adjusted request and the block has one slot more. The new buffer is empty, with `r == w == 0`. |
| `SentinelRing.RingBuffer.Push` | RingBuffer/RingBuffer.inl:47-71 | `push` fails with `overflow_error` exactly when the size equals the capacity, and then changes nothing. Otherwise the value is appended and the size grows by one. `w` advances one slot modulo `bufferSize` and `r` stays. |
| `SentinelRing.RingBuffer.Pop` | RingBuffer/RingBuffer.inl:73-82 | `pop` fails with `underflow_error` exactly when the buffer is empty, and then changes nothing. Otherwise it returns the oldest element, the contents lose their head, and the size drops by one. `r` advances one slot and `w` stays. |
| `SentinelRing.RingBuffer.CopyRingBuffer` | RingBuffer/RingBuffer.inl:129-146 | The copy has the source's slot count, `r == 0` and `w` equal to the source's size. It holds exactly the source's contents, unwrapped from slot 0, including for a full source. |
| `SentinelRing.RingBuffer.Copy` | RingBuffer/RingBuffer.inl:32-38 | The copy constructor gives a buffer with the source's slot count and contents. |
| `SentinelClient.Drive` | RingBuffer/RingBuffer.inl:47-82 | Any sequence of pushes and pops, each failure caught, acts on the contents as `Fifo.Replay` with bound `getCapacity()`. The order is FIFO, and the size changes by the accepted pushes minus the accepted pops. |
| `SentinelClient.Fill` | RingBufferTest.cpp:134-143 | Pushes that fit all succeed and append in order. The size after each push is one more than before it. |
| `SentinelClient.Drain` | RingBufferTest.cpp:153-162 | Popping `getSize()` times returns the contents in order and empties the buffer. The sizes count down to 0. |
| `SentinelClient.SmokeScenario` | RingBufferTest.cpp:10-84 | With capacity 13, the new buffer is empty and reports capacity 13, and the fourteenth push overflows. The copy of the full buffer has size 13 and capacity 13. Thirteen pops return 0 to 12, the next pop underflows, and the buffer is empty. |
| `SentinelClient.CapacityOneScenario` | RingBufferTest.cpp:86-114 | With capacity 1, the push of 42 succeeds and the second push overflows. The first pop returns 42 and the second underflows. |
| `SentinelClient.RingPropertyScenario` | RingBufferTest.cpp:116-172 | With capacity 10, five pushes and five pops leave size 0. Ten pushes across the end of the block give sizes 1 to 10, and an eleventh overflows. Ten pops return 0 to 9 with sizes 9 down to 0, and the next pop underflows. |
| `RingIndex.SpanAfterPush` | src/RB/RingBuffer.inl:114-125 | Advancing `w` by one slot on a buffer that is not full makes the `getSize` expression one larger. |
| `RingIndex.SpanAfterPop` | src/RB/RingBuffer.inl:114-125 | Advancing `r` by one slot on a non-empty buffer makes the `getSize` expression one smaller. It meets `w` exactly when one element was held. |
| `RingIndex.WindowPush` | src/RB/RingBuffer.inl:49-50 | Writing slot `w` and advancing it appends the value to the logical contents. |
| `RingIndex.WindowPop` | src/RB/RingBuffer.inl:74-75 | Advancing `r` by one slot drops the head of the logical contents. |
| `RingIndex.UnwrappedWindow` | src/RB/RingBuffer.inl:156-162 | A block holding the source's elements at slots 0, 1, ... has the same contents as the wrapped source. |
| `Fifo.ReplayIsFifo` | src/RB/RingBuffer.inl:39-83 | Along any run of the reference queue, what was popped, followed by what is left, is what was there, followed by what was pushed. The size never exceeds the bound. |
| `Fifo.ReplaySnoc` | src/RB/RingBuffer.inl:39-83 | A run of calls followed by one more call is the run followed by that call's step. |

## Left out

- Console output is left out: the `std::cerr` warnings in both constructors and the `std::clog` traces in `push` are I/O with no effect on state.
- The two `push` overloads, `push(const T&)` and `push(T&&)`, are one `Push` each. Copying and moving a value cannot be told apart in the model.
- FlagRing.RingBuffer.Pop and SentinelRing.RingBuffer.Pop return the value moved out of slot `r`. The source returns a `T&&` bound to a local that is destroyed on return, a dangling reference.
- FlagRing.RingBuffer.Pop and SentinelRing.RingBuffer.Pop leave slot `r` holding its value. In the source that slot is left moved-from. The slot is outside the contents either way.
- FlagRing.RingBuffer.Get states only the in-range case. For `i` at or beyond the size it reads slot `(i + r) % bufferSize` with no promise. `index + r` is computed without `size_t` wrap-around, which differs only when it exceeds `SIZE_MAX`.
- FlagRing.RingBuffer.Get and FlagRing.RingBuffer.At return element values. The source returns `T&`, and writes through that reference are not modelled.
- The copy methods require `other != this`, so self-assignment is left out. In the source `copyRingBuffer` resets the cursors and replaces the block before reading `other`.
- FlagRing.RingBuffer.CopyRingBuffer and SentinelRing.RingBuffer.CopyRingBuffer assign the fields once the loop has filled a local block. The source updates `w` and `buffer` as it goes, which is only observable through self-assignment.
- Copy assignment (`operator=`) is modelled by `CopyRingBuffer`, the only thing it calls. The defaulted move constructor and move assignment (`src/RB/RingBuffer.hpp:25-26`) and `unique_ptr` ownership are left out. So is the `other.buffer` null check in `copyRingBuffer`, which only a moved-from source fails.
- FlagRing.RingBuffer.constructor and SentinelRing.RingBuffer.constructor: allocation always succeeds in the model. In the source `make_unique` throws (`std::bad_alloc` or `std::bad_array_new_length`) for a block too large to allocate (src/RB/RingBuffer.inl:20, RingBuffer/RingBuffer.inl:28), and that includes every request the `SIZE_MAX` clamp handles, whose block of `SIZE_MAX` slots the model nevertheless builds. The same holds for the copy methods and copy constructors.
- A fresh block from `make_unique<T[]>` holds value-initialised elements. The model fills it with a value `Blank` given to the constructor.
- `size_t` is unbounded `nat` except for the `SIZE_MAX` clamp of the sentinel constructor. `SIZE_MAX` is 2^64 - 1. Cursor arithmetic (`w + 1`, `bufferSize - r + w`) never exceeds `SIZE_MAX` in a valid buffer, so no `size_t` wrap-around occurs.
- Errors are `Outcome` and `Result` values, not C++ exception types. `src/RB/RingBuffer.inl` throws `out_of_range` for both overflow and underflow (lines 132 and 141). The unit tests in `src/UnitTest/TestRingBuffer.cpp` catch `overflow_error` and `underflow_error` (lines 24 and 40). The `FlagClient` scenarios therefore report `OutOfRange` where the test expects an overflow or underflow.
- `src/RB/RingBuffer.hpp` declares the sentinel generation's members (`checkOverflow`, `checkUnderflow`, no `isEmpty`, no `at` or `operator[]`). `src/RB/RingBuffer.inl` defines the flag-based ones. Each `.inl` file is modelled as written and the header is used only for the default capacity.
- Both constructors replace a requested capacity of 0 with `RING_BUFFER_DEFAULT_CAPACITY` (src/RB/RingBuffer.inl:12-18, RingBuffer/RingBuffer.inl:11-17). Neither generation has a resize operation or iterators, so none is modelled.

## Findings

| source | as written | input that shows it | evidently intended | confidence | as-written member | corrected member |
|---|---|---|---|---|---|---|
| src/RB/RingBuffer.inl:153-162 | The copy loop runs from `other.r` until it meets `other.w`. For a full source these are equal, so nothing is copied, yet the copy has the flag clear and `w == 0` and reports itself full. | Copy a buffer of capacity 1 holding 42: the copy reports size 1 but pops a fresh slot's value, not 42. | The copy holds the source's elements, full or not. The corrected copy makes two changes: it runs the loop `getSize()` times, and it advances `w` modulo `bufferSize`, where line 161 adds one without a modulo and would leave `w == bufferSize` after copying a full source. | medium; not executed | `FlagRing.RingBuffer.CopyRingBuffer`, `FlagClient.FullCopyScenario` | `FlagRing.RingBuffer.CopyRingBufferCorrected` |
