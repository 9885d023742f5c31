/** The sentinel-slot ring buffer of RingBuffer/RingBuffer.inl: a buffer of
    capacity c keeps c + 1 slots and never fills the last free one, so r == w
    always means empty and a full buffer has w one slot behind r. */
module SentinelRing {
  import opened Outcomes
  import opened RingIndex

  /** The condition checkOverflow tests, as written: w at the largest size_t
      with r at 0, or w on the last slot with r at 0, or w + 1 == r. */
  predicate OverflowGuard(r: nat, w: nat, bufferSize: nat)
  {
    (w == SizeMax && r == 0) || (w == bufferSize - 1 && r == 0) || w + 1 == r
  }

  /** For cursors inside a block of at most SizeMax slots, the first clause of
      the guard never holds, and the guard says exactly that advancing w by
      one slot would land on r, which is when the stretch r..w is one slot
      short of a full lap. */
  lemma OverflowGuardIsFull(r: nat, w: nat, bufferSize: nat)
    requires 2 <= bufferSize <= SizeMax && r < bufferSize && w < bufferSize
    ensures !(w == SizeMax && r == 0)
    ensures OverflowGuard(r, w, bufferSize) <==> (w + 1) % bufferSize == r
    ensures OverflowGuard(r, w, bufferSize) <==> r != w && Span(r, w, bufferSize) == bufferSize - 1
  {
    ModWrap(w + 1, bufferSize);
  }

  /** The capacity a constructor request ends up with: 0 becomes the default,
      the largest size_t becomes one less, anything else is kept. */
  function AdjustedCapacity(capacity: nat): (c: nat)
    requires capacity <= SizeMax
    ensures 1 <= c < SizeMax
    ensures capacity == 0 ==> c == DefaultCapacity
    ensures capacity == SizeMax ==> c == SizeMax - 1
    ensures capacity != 0 && capacity != SizeMax ==> c == capacity
  {
    if capacity == 0 then DefaultCapacity
    else if capacity == SizeMax then SizeMax - 1
    else capacity
  }

  class RingBuffer<T> {
    var r: nat
    var w: nat
    var bufferSize: nat
    var buffer: array<T>
    /** The value T() that value-initialisation puts into a fresh slot. */
    const Blank: T

    /** The object invariant: a block of capacity + 1 slots, with a capacity
        of at least 1 and a slot count that is a size_t, and both cursors
        inside it. */
    ghost predicate Valid()
      reads this
    {
      && buffer.Length == bufferSize
      && 2 <= bufferSize <= SizeMax
      && r < bufferSize
      && w < bufferSize
    }

    /** The logical contents, oldest first: element i is in slot (r + i) % bufferSize. */
    ghost function Contents(): (s: seq<T>)
      reads this, buffer
      requires Valid()
      ensures |s| == GetSize()
    {
      Window(buffer[..], r, GetSize())
    }

    /** getSize: 0 when the cursors meet, otherwise the distance from r to w;
        it never reaches the slot count. */
    function GetSize(): (n: nat)
      reads this
      requires Valid()
      ensures n < bufferSize
      ensures n == 0 <==> r == w
      ensures w == Wrap(r + n, bufferSize)
    {
      if r == w then 0 else Span(r, w, bufferSize)
    }

    /** empty: the cursors meet. */
    function Empty(): (e: bool)
      reads this
      requires Valid()
      ensures e <==> GetSize() == 0
    {
      r == w
    }

    /** getCapacity: one slot fewer than the block has. */
    function GetCapacity(): (c: nat)
      reads this
      requires Valid()
      ensures c + 1 == buffer.Length && GetSize() <= c
    {
      bufferSize - 1
    }

    /** checkOverflow: the guard of OverflowGuard, which refuses a push exactly
        when the buffer holds its capacity; the error is overflow_error. */
    function CheckOverflow(): (o: Outcome)
      reads this
      requires Valid()
      ensures o.Fail? <==> GetSize() == GetCapacity()
      ensures o.Fail? ==> o.error == Overflow
    {
      OverflowGuardIsFull(r, w, bufferSize);
      if OverflowGuard(r, w, bufferSize) then Fail(Overflow) else Pass
    }

    /** checkUnderflow: a pop is refused exactly when the buffer holds nothing;
        the error is underflow_error. */
    function CheckUnderflow(): (o: Outcome)
      reads this
      requires Valid()
      ensures o.Fail? <==> GetSize() == 0
      ensures o.Fail? ==> o.error == Underflow
    {
      if r == w then Fail(Underflow) else Pass
    }

    /** The constructor: the capacity is adjusted (AdjustedCapacity) and the
        block gets one slot more; the new buffer is empty with both cursors at 0. */
    constructor (capacity: nat, blank: T)
      requires capacity <= SizeMax
      ensures Valid() && fresh(buffer)
      ensures GetCapacity() == AdjustedCapacity(capacity) && bufferSize == GetCapacity() + 1
      ensures r == 0 && w == 0 && Blank == blank
      ensures Contents() == []
    {
      var c := AdjustedCapacity(capacity);
      r, w := 0, 0;
      buffer := new T[c + 1](_ => blank);
      bufferSize := c + 1;
      Blank := blank;
    }

    /** push: when the buffer holds its capacity it throws overflow_error and
        changes nothing; otherwise the value goes into slot w and w advances
        one slot, so the value is appended to the contents. */
    method Push(value: T) returns (o: Outcome)
      requires Valid()
      modifies this, buffer
      ensures Valid() && buffer == old(buffer) && bufferSize == old(bufferSize)
      ensures o.Fail? <==> old(GetSize()) == GetCapacity()
      ensures o.Fail? ==> o.error == Overflow && unchanged(this) && unchanged(buffer)
      ensures o.Pass? ==> Contents() == old(Contents()) + [value] && GetSize() == old(GetSize()) + 1
      ensures o.Pass? ==> r == old(r) && w == (old(w) + 1) % bufferSize
    {
      o := CheckOverflow();
      if o.Fail? {
        return;
      }
      ghost var n := GetSize();
      ghost var slots := buffer[..];
      SpanAfterPush(r, w, bufferSize, n);
      WindowPush(slots, r, n, value);
      buffer[w] := value;
      w := (w + 1) % bufferSize;
    }

    /** pop: when the buffer is empty it throws underflow_error and changes
        nothing; otherwise it returns the value in slot r (the oldest) and r
        advances one slot. */
    method Pop() returns (x: Result<T>)
      requires Valid()
      modifies this
      ensures Valid() && buffer == old(buffer) && bufferSize == old(bufferSize)
      ensures x.Err? <==> old(GetSize()) == 0
      ensures x.Err? ==> x.error == Underflow && unchanged(this)
      ensures x.Ok? ==> x.value == old(Contents())[0] && Contents() == old(Contents())[1..]
      ensures x.Ok? ==> GetSize() == old(GetSize()) - 1
      ensures x.Ok? ==> r == (old(r) + 1) % bufferSize && w == old(w)
    {
      var check := CheckUnderflow();
      if check.Fail? {
        return Err(check.error);
      }
      ghost var n, before := GetSize(), Contents();
      SpanAfterPop(r, w, bufferSize, n);
      WindowPop(buffer[..], r, n);
      x := Ok(buffer[r]);
      r := (r + 1) % bufferSize;
      assert GetSize() == n - 1;
      assert Contents() == before[1..];
    }

    /** copyRingBuffer, shared by the copy constructor and copy assignment: a
        fresh block of the source's size, then a cursor loop from the source's
        r until it meets the source's w, writing to slots 0, 1, ... of the
        copy. The copy holds the same contents, unwrapped from slot 0. */
    method CopyRingBuffer(other: RingBuffer<T>)
      requires other.Valid() && other != this
      modifies this
      ensures Valid() && fresh(buffer)
      ensures bufferSize == other.bufferSize && r == 0 && w == other.GetSize()
      ensures Contents() == other.Contents()
    {
      var blank := Blank;
      var block := new T[other.bufferSize](_ => blank);
      ghost var L, n, slots := other.bufferSize, other.GetSize(), other.buffer[..];
      var count := 0;
      if !other.Empty() {
        var i := other.r;
        while i != other.w
          modifies block
          invariant count <= n && i == Wrap(other.r + count, L)
          invariant forall j :: 0 <= j < count ==> block[j] == slots[Wrap(other.r + j, L)]
          decreases n - count
        {
          StepSlot(other.r, count, L);
          block[count] := other.buffer[i];
          count := count + 1;
          i := (i + 1) % other.bufferSize;
        }
      }
      r, w := 0, count;
      buffer, bufferSize := block, other.bufferSize;
      UnwrappedWindow(slots, other.r, n, block[..]);
    }

    /** The copy constructor: copyRingBuffer into a fresh object. */
    constructor Copy(other: RingBuffer<T>)
      requires other.Valid()
      ensures Valid() && fresh(buffer)
      ensures bufferSize == other.bufferSize && r == 0 && Blank == other.Blank
      ensures Contents() == other.Contents()
    {
      r, w, bufferSize := 0, 0, 0;
      Blank := other.Blank;
      buffer := new T[0];
      new;
      CopyRingBuffer(other);
    }
  }
}
