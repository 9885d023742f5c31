/** A reference definition of a bounded first-in-first-out queue, used to state
    what any sequence of pushes and pops does to a ring buffer. */
module Fifo {

  /** One call a client makes: push(value) or pop(). */
  datatype Op<T> = Push(value: T) | Pop

  /** What a run of calls leaves behind: the final contents, the values whose
      push was accepted and the values the accepted pops returned, in order. */
  datatype Run<T> = Run(contents: seq<T>, pushed: seq<T>, popped: seq<T>)

  /** One call on a queue of at most cap elements: a push is accepted iff fewer
      than cap elements are held, a pop iff at least one is. A rejected call
      changes nothing. */
  function Step<T>(q: seq<T>, cap: nat, op: Op<T>): Run<T>
  {
    match op
    case Push(x) => if |q| < cap then Run(q + [x], [x], []) else Run(q, [], [])
    case Pop => if q != [] then Run(q[1..], [], [q[0]]) else Run(q, [], [])
  }

  /** The calls ops, one after the other, starting from the contents q. */
  function Replay<T>(q: seq<T>, cap: nat, ops: seq<Op<T>>): Run<T>
    decreases |ops|
  {
    if ops == [] then Run(q, [], [])
    else
      var first := Step(q, cap, ops[0]);
      var rest := Replay(first.contents, cap, ops[1..]);
      Run(rest.contents, first.pushed + rest.pushed, first.popped + rest.popped)
  }

  /** One call keeps the order: what it pops, followed by what it leaves,
      is what was there, followed by what it pushes. */
  lemma StepIsFifo<T>(q: seq<T>, cap: nat, op: Op<T>)
    requires |q| <= cap
    ensures Step(q, cap, op).popped + Step(q, cap, op).contents == q + Step(q, cap, op).pushed
    ensures |Step(q, cap, op).contents| <= cap
  {
    match op
    case Push(x) =>
    case Pop =>
      if q != [] {
        assert [q[0]] + q[1..] == q;
      }
  }

  /** The bookkeeping step of ReplayIsFifo: two runs, the second starting
      where the first stopped, chain into one. */
  lemma Regroup<T>(popped1: seq<T>, popped2: seq<T>, final: seq<T>, middle: seq<T>,
                   q: seq<T>, pushed1: seq<T>, pushed2: seq<T>)
    requires popped1 + middle == q + pushed1
    requires popped2 + final == middle + pushed2
    ensures (popped1 + popped2) + final == q + (pushed1 + pushed2)
  {
    calc {
      (popped1 + popped2) + final;
      popped1 + (popped2 + final);
      popped1 + (middle + pushed2);
      (popped1 + middle) + pushed2;
    }
  }

  /** Values leave in the order they entered: what was popped, followed by what
      is left, is what was there, followed by what was pushed. So the size is
      the initial size plus the accepted pushes minus the accepted pops, and it
      never exceeds the bound. */
  lemma {:induction false} ReplayIsFifo<T>(q: seq<T>, cap: nat, ops: seq<Op<T>>)
    requires |q| <= cap
    ensures Replay(q, cap, ops).popped + Replay(q, cap, ops).contents == q + Replay(q, cap, ops).pushed
    ensures |Replay(q, cap, ops).contents| == |q| + |Replay(q, cap, ops).pushed| - |Replay(q, cap, ops).popped|
    ensures |Replay(q, cap, ops).contents| <= cap
    decreases |ops|
  {
    if ops != [] {
      var first := Step(q, cap, ops[0]);
      var rest := Replay(first.contents, cap, ops[1..]);
      StepIsFifo(q, cap, ops[0]);
      ReplayIsFifo(first.contents, cap, ops[1..]);
      Regroup(first.popped, rest.popped, rest.contents, first.contents, q, first.pushed, rest.pushed);
    }
  }

  /** Replay read from the other end: the calls ops followed by one more call
      op run ops first, then op on what ops left, and chain the two. */
  lemma {:induction false} ReplaySnoc<T>(q: seq<T>, cap: nat, ops: seq<Op<T>>, op: Op<T>)
    ensures var pre := Replay(q, cap, ops);
      var last := Step(pre.contents, cap, op);
      Replay(q, cap, ops + [op])
        == Run(last.contents, pre.pushed + last.pushed, pre.popped + last.popped)
    decreases |ops|
  {
    if ops == [] {
      assert ops + [op] == [op];
      var last := Step(q, cap, op);
      assert last.pushed + [] == last.pushed && last.popped + [] == last.popped;
      assert [] + last.pushed == last.pushed && [] + last.popped == last.popped;
    } else {
      assert (ops + [op])[0] == ops[0];
      assert (ops + [op])[1..] == ops[1..] + [op];
      var first := Step(q, cap, ops[0]);
      ReplaySnoc(first.contents, cap, ops[1..], op);
      var pre := Replay(first.contents, cap, ops[1..]);
      var last := Step(pre.contents, cap, op);
      assert first.pushed + (pre.pushed + last.pushed) == (first.pushed + pre.pushed) + last.pushed;
      assert first.popped + (pre.popped + last.popped) == (first.popped + pre.popped) + last.popped;
    }
  }
}
