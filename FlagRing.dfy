/** The flag-based ring buffer of src/RB/RingBuffer.inl (namespace RB): all
    bufferSize slots are usable, and an explicit isEmpty flag tells an empty
    buffer (r == w, flag set) from a full one (r == w, flag clear). */
module FlagRing {
  import opened Outcomes
  import opened RingIndex

  class RingBuffer<T> {
    var r: nat
    var w: nat
    var bufferSize: nat
    var isEmpty: bool
    var buffer: array<T>
    /** The value T() that value-initialisation puts into a fresh slot. */
    const Blank: T

    /** The object invariant: the block has bufferSize >= 1 slots, both cursors
        point into it, and a set flag means the cursors meet. */
    ghost predicate Valid()
      reads this
    {
      && buffer.Length == bufferSize
      && 0 < bufferSize
      && r < bufferSize
      && w < bufferSize
      && (isEmpty ==> r == w)
    }

    /** The logical contents, oldest first: element i is in slot (r + i) % bufferSize. */
    ghost function Contents(): (s: seq<T>)
      reads this, buffer
      requires Valid()
      ensures |s| == GetSize()
    {
      Window(buffer[..], r, GetSize())
    }

    /** getSize: 0 when the flag is set, otherwise the distance from r to w,
        a whole lap when they meet. */
    function GetSize(): (n: nat)
      reads this
      requires Valid()
      ensures n <= bufferSize
      ensures n == 0 <==> isEmpty
      ensures n == bufferSize <==> !isEmpty && r == w
      ensures w == Wrap(r + n, bufferSize)
    {
      if isEmpty then 0 else Span(r, w, bufferSize)
    }

    /** empty: the flag itself. */
    function Empty(): (e: bool)
      reads this
      requires Valid()
      ensures e <==> GetSize() == 0
    {
      isEmpty
    }

    /** getCapacity: every slot of the block is usable. */
    function GetCapacity(): (c: nat)
      reads this
      requires Valid()
      ensures c == buffer.Length && GetSize() <= c
    {
      bufferSize
    }

    /** checkPush: the buffer refuses a push when the flag is clear and the
        cursors meet, which is exactly when every slot is in use. */
    function CheckPush(): (o: Outcome)
      reads this
      requires Valid()
      ensures o.Fail? <==> GetSize() == GetCapacity()
      ensures o.Fail? ==> o.error == OutOfRange
    {
      if !isEmpty && r == w then Fail(OutOfRange) else Pass
    }

    /** checkPop: the buffer refuses a pop when the flag is set, which is
        exactly when it holds nothing. */
    function CheckPop(): (o: Outcome)
      reads this
      requires Valid()
      ensures o.Fail? <==> GetSize() == 0
      ensures o.Fail? ==> o.error == OutOfRange
    {
      if isEmpty then Fail(OutOfRange) else Pass
    }

    /** operator[]: the slot that logical index i maps to, without a bounds
        check; for an index below the size it is element i of the contents. */
    function Get(i: nat): (x: T)
      reads this, buffer
      requires Valid()
      ensures i < GetSize() ==> x == Contents()[i]
    {
      if i < bufferSize then ModWrap(i + r, bufferSize); buffer[(i + r) % bufferSize]
      else buffer[(i + r) % bufferSize]
    }

    /** at: element i of the contents, or out_of_range when i is not below the size. */
    function At(i: nat): (x: Result<T>)
      reads this, buffer
      requires Valid()
      ensures x.Err? <==> i >= GetSize()
      ensures x.Err? ==> x.error == OutOfRange
      ensures x.Ok? ==> x.value == Contents()[i]
    {
      if i >= GetSize() then Err(OutOfRange) else Ok(Get(i))
    }

    /** The constructor: a requested capacity of 0 becomes the default one,
        any other is kept; the new buffer is empty with both cursors at 0. */
    constructor (capacity: nat, blank: T)
      ensures Valid() && fresh(buffer)
      ensures bufferSize == if capacity == 0 then DefaultCapacity else capacity
      ensures r == 0 && w == 0 && isEmpty && Blank == blank
      ensures Contents() == []
    {
      var c := if capacity == 0 then DefaultCapacity else capacity;
      r, w, isEmpty := 0, 0, true;
      buffer := new T[c](_ => blank);
      bufferSize := c;
      Blank := blank;
    }

    /** push: when the buffer is full it throws out_of_range and changes
        nothing; otherwise the value goes into slot w, w advances one slot and
        the flag clears, so the value is appended to the contents. */
    method Push(value: T) returns (o: Outcome)
      requires Valid()
      modifies this, buffer
      ensures Valid() && buffer == old(buffer) && bufferSize == old(bufferSize)
      ensures o.Fail? <==> old(GetSize()) == bufferSize
      ensures o.Fail? ==> o.error == OutOfRange && unchanged(this) && unchanged(buffer)
      ensures o.Pass? ==> Contents() == old(Contents()) + [value] && GetSize() == old(GetSize()) + 1
      ensures o.Pass? ==> r == old(r) && w == (old(w) + 1) % bufferSize && !isEmpty
    {
      o := CheckPush();
      if o.Fail? {
        return;
      }
      ghost var n := GetSize();
      ghost var slots := buffer[..];
      SpanAfterPush(r, w, bufferSize, n);
      WindowPush(slots, r, n, value);
      buffer[w] := value;
      w := (w + 1) % bufferSize;
      isEmpty := false;
    }

    /** pop: when the buffer is empty it throws out_of_range and changes
        nothing; otherwise it returns the value in slot r (the oldest), r
        advances one slot, and the flag is set when r reaches w. */
    method Pop() returns (x: Result<T>)
      requires Valid()
      modifies this
      ensures Valid() && buffer == old(buffer) && bufferSize == old(bufferSize)
      ensures x.Err? <==> old(GetSize()) == 0
      ensures x.Err? ==> x.error == OutOfRange && unchanged(this)
      ensures x.Ok? ==> x.value == old(Contents())[0] && Contents() == old(Contents())[1..]
      ensures x.Ok? ==> GetSize() == old(GetSize()) - 1
      ensures x.Ok? ==> r == (old(r) + 1) % bufferSize && w == old(w)
      ensures x.Ok? ==> (isEmpty <==> old(GetSize()) == 1)
    {
      var check := CheckPop();
      if check.Fail? {
        return Err(check.error);
      }
      ghost var n, before := GetSize(), Contents();
      SpanAfterPop(r, w, bufferSize, n);
      WindowPop(buffer[..], r, n);
      x := Ok(buffer[r]);
      r := (r + 1) % bufferSize;
      if r == w {
        isEmpty := true;
      }
      assert GetSize() == n - 1;
      assert Contents() == before[1..];
    }

    /** copyRingBuffer, shared by the copy constructor and copy assignment, as
        written: a fresh block of the source's size, then a cursor loop from
        the source's r until it meets the source's w. For a source that is
        not full the copy holds the same contents unwrapped from slot 0. For
        a full source the loop stops before its first step: the copy reports
        itself full but holds only fresh slots. */
    method CopyRingBuffer(other: RingBuffer<T>)
      requires other.Valid() && other != this
      modifies this
      ensures Valid() && fresh(buffer)
      ensures bufferSize == other.bufferSize && r == 0 && isEmpty == other.isEmpty
      ensures GetSize() == other.GetSize()
      ensures other.GetSize() < other.bufferSize ==> w == other.GetSize() && Contents() == other.Contents()
      ensures other.GetSize() == other.bufferSize ==> w == 0 && Contents() == seq(bufferSize, _ => Blank)
    {
      var blank := Blank;
      var block := new T[other.bufferSize](_ => blank);
      ghost var L, n, slots := other.bufferSize, other.GetSize(), other.buffer[..];
      ghost var initial := block[..];
      var count := 0;
      if !other.isEmpty {
        var i := other.r;
        while i != other.w
          modifies block
          invariant count <= n && i == Wrap(other.r + count, L)
          invariant n == L ==> count == 0 && block[..] == initial
          invariant forall j :: 0 <= j < count ==> block[j] == slots[Wrap(other.r + j, L)]
          decreases n - count
        {
          StepSlot(other.r, count, L);
          block[count] := other.buffer[i];
          count := count + 1;
          i := (i + 1) % other.bufferSize;
        }
      }
      r, w, isEmpty := 0, count, other.isEmpty;
      buffer, bufferSize := block, other.bufferSize;
      if n < L {
        UnwrappedWindow(slots, other.r, n, block[..]);
      } else {
        UniformWindow(initial, blank);
      }
    }

    /** copyRingBuffer as evidently intended: the same cursor loop, but run
        for GetSize() steps instead of until the cursor meets the source's w,
        so that a full source is copied as well. The copy holds the same
        contents, unwrapped from slot 0, in every case. */
    method CopyRingBufferCorrected(other: RingBuffer<T>)
      requires other.Valid() && other != this
      modifies this
      ensures Valid() && fresh(buffer)
      ensures bufferSize == other.bufferSize && r == 0 && isEmpty == other.isEmpty
      ensures w == other.GetSize() % other.bufferSize
      ensures Contents() == other.Contents()
    {
      var blank := Blank;
      var block := new T[other.bufferSize](_ => blank);
      ghost var L, slots := other.bufferSize, other.buffer[..];
      var n := other.GetSize();
      var i := other.r;
      for count := 0 to n
        modifies block
        invariant i == Wrap(other.r + count, L)
        invariant forall j :: 0 <= j < count ==> block[j] == slots[Wrap(other.r + j, L)]
      {
        StepSlot(other.r, count, L);
        block[count] := other.buffer[i];
        i := (i + 1) % other.bufferSize;
      }
      r, w, isEmpty := 0, n % other.bufferSize, other.isEmpty;
      buffer, bufferSize := block, other.bufferSize;
      UnwrappedWindow(slots, other.r, n, block[..]);
      ModWrap(n, L);
    }

    /** The copy constructor: copyRingBuffer into a fresh object. */
    constructor Copy(other: RingBuffer<T>)
      requires other.Valid()
      ensures Valid() && fresh(buffer)
      ensures bufferSize == other.bufferSize && r == 0 && isEmpty == other.isEmpty
      ensures Blank == other.Blank
      ensures GetSize() == other.GetSize()
      ensures other.GetSize() < other.bufferSize ==> Contents() == other.Contents()
      ensures other.GetSize() == other.bufferSize ==> Contents() == seq(bufferSize, _ => Blank)
    {
      r, w := 0, 0;
      isEmpty, bufferSize := true, 0;
      Blank := other.Blank;
      buffer := new T[0];
      new;
      CopyRingBuffer(other);
    }
  }
}
