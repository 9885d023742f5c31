/** Index arithmetic shared by both ring buffers. A buffer of L physical slots
    keeps a read cursor r and a write cursor w, both in [0, L), and advances
    each one slot at a time modulo L. */
module RingIndex {

  /** The largest size_t, on a target where size_t is 64 bits wide. */
  const SizeMax: nat := 0xFFFF_FFFF_FFFF_FFFF

  /** RING_BUFFER_DEFAULT_CAPACITY: what a requested capacity of 0 becomes. */
  const DefaultCapacity: nat := 1024

  /** A position less than two laps past slot 0, brought back into the first
      lap. Cursors never get further ahead than that, so every remainder the
      buffers take is a Wrap (ModWrap). */
  function Wrap(x: nat, L: nat): nat
    requires x < 2 * L
  {
    if x < L then x else x - L
  }

  /** Below two laps, taking the remainder is Wrap. */
  lemma ModWrap(x: nat, L: nat)
    requires x < 2 * L
    ensures x % L == Wrap(x, L)
  {
    if x >= L {
      assert x == L * 1 + (x - L);
    }
  }

  /** The expression both getSize implementations evaluate once they know the
      buffer is not empty: the number of slots from r forward to w, a whole lap
      when the two cursors meet. */
  function Span(r: nat, w: nat, L: nat): nat
    requires r < L && w < L
  {
    if r < w then w - r else L - r + w
  }

  /** The n logical elements stored from physical slot start on, wrapping
      around the end of slots once at most. */
  function Window<T>(slots: seq<T>, start: nat, n: nat): (s: seq<T>)
    requires start < |slots| && n <= |slots|
    ensures |s| == n
    ensures n > 0 ==> s[0] == slots[start]
  {
    assert Wrap(start + 0, |slots|) == start;
    seq(n, i requires 0 <= i < n => slots[Wrap(start + i, |slots|)])
  }

  /** Span is the only number of forward steps, between 1 and L, that takes
      r to w. */
  lemma SpanUnique(r: nat, w: nat, L: nat, k: nat)
    requires r < L && w < L && 1 <= k <= L
    requires Wrap(r + k, L) == w
    ensures Span(r, w, L) == k
  {
  }

  /** Advancing a cursor k steps past r by one slot, modulo L, gives the
      cursor k + 1 steps past r. */
  lemma StepSlot(r: nat, k: nat, L: nat)
    requires r < L && k < L
    ensures (Wrap(r + k, L) + 1) % L == Wrap(r + (k + 1), L)
  {
    ModWrap(Wrap(r + k, L) + 1, L);
  }

  /** Advancing w by one slot (a push) lengthens the stretch r..w by one,
      provided it was shorter than a full lap. */
  lemma SpanAfterPush(r: nat, w: nat, L: nat, n: nat)
    requires r < L && w < L && n < L
    requires Wrap(r + n, L) == w
    ensures Span(r, (w + 1) % L, L) == n + 1
    ensures (w + 1) % L == Wrap(r + (n + 1), L)
  {
    StepSlot(r, n, L);
    SpanUnique(r, (w + 1) % L, L, n + 1);
  }

  /** Advancing r by one slot (a pop) shortens a stretch of n >= 1 slots by
      one; r lands on w exactly when the stretch was one slot long. */
  lemma SpanAfterPop(r: nat, w: nat, L: nat, n: nat)
    requires r < L && w < L && 1 <= n <= L
    requires Wrap(r + n, L) == w
    ensures (r + 1) % L < L
    ensures ((r + 1) % L == w) <==> n == 1
    ensures Wrap((r + 1) % L + (n - 1), L) == w
    ensures n > 1 ==> Span((r + 1) % L, w, L) == n - 1
  {
    StepSlot(r, 0, L);
    if n > 1 {
      SpanUnique((r + 1) % L, w, L, n - 1);
    }
  }

  /** Writing x into the slot just past the last element appends x to the
      logical sequence. */
  lemma WindowPush<T>(slots: seq<T>, r: nat, n: nat, x: T)
    requires r < |slots| && n < |slots|
    ensures Window(slots[Wrap(r + n, |slots|) := x], r, n + 1) == Window(slots, r, n) + [x]
  {
    var after, before := Window(slots[Wrap(r + n, |slots|) := x], r, n + 1), Window(slots, r, n);
    forall i | 0 <= i < n + 1
      ensures after[i] == (before + [x])[i]
    {
      if i < n {
        assert Wrap(r + i, |slots|) != Wrap(r + n, |slots|);
      }
    }
  }

  /** Moving the start one slot forward drops the oldest element. */
  lemma WindowPop<T>(slots: seq<T>, r: nat, n: nat)
    requires r < |slots| && 1 <= n <= |slots|
    ensures (r + 1) % |slots| < |slots|
    ensures Window(slots, (r + 1) % |slots|, n - 1) == Window(slots, r, n)[1..]
  {
    var before, after := Window(slots, r, n), Window(slots, (r + 1) % |slots|, n - 1);
    StepSlot(r, 0, |slots|);
    forall i | 0 <= i < n - 1
      ensures after[i] == before[i + 1]
    {
      assert Wrap((r + 1) % |slots| + i, |slots|) == Wrap(r + (i + 1), |slots|);
    }
  }

  /** A block whose slots all hold x, read as a full window from slot 0. */
  lemma UniformWindow<T>(block: seq<T>, x: T)
    requires |block| > 0
    requires forall j :: 0 <= j < |block| ==> block[j] == x
    ensures Window(block, 0, |block|) == seq(|block|, _ => x)
  {
    var s := Window(block, 0, |block|);
    forall j | 0 <= j < |block|
      ensures s[j] == x
    {
      assert Wrap(0 + j, |block|) == j;
    }
  }

  /** A block whose first n slots hold, in order, the slots r, r + 1, ... of
      another block of the same length holds the same window unwrapped from
      slot 0. This is what the copy loops produce. */
  lemma UnwrappedWindow<T>(slots: seq<T>, r: nat, n: nat, block: seq<T>)
    requires r < |slots| && n <= |slots| == |block|
    requires forall j :: 0 <= j < n ==> block[j] == slots[Wrap(r + j, |slots|)]
    ensures Window(block, 0, n) == Window(slots, r, n)
  {
    var copied, source := Window(block, 0, n), Window(slots, r, n);
    forall j | 0 <= j < n
      ensures copied[j] == source[j]
    {
      assert Wrap(0 + j, |block|) == j;
    }
  }
}
