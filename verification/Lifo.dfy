/** A last-in-first-out stack over any element type: the behaviour the host's
    stack object gets from `std::vector`'s `push_back`, `back` and `pop_back`. */
module Lifo {

  /** Elements from bottom to top: the top is the last one. */
  datatype Stack<T> = Stack(items: seq<T>)

  function Empty<T>(): Stack<T>
  {
    Stack([])
  }

  function Size<T>(s: Stack<T>): nat
  {
    |s.items|
  }

  /** Pushing puts `x` on top and keeps everything below it. */
  function Push<T>(s: Stack<T>, x: T): (r: Stack<T>)
    ensures Size(r) == Size(s) + 1
    ensures r.items[Size(s)] == x
    ensures r.items[..Size(s)] == s.items
  {
    Stack(s.items + [x])
  }

  /** Popping a non-empty stack answers its top element and removes that
      element only. */
  function Pop<T>(s: Stack<T>): (r: (T, Stack<T>))
    requires Size(s) > 0
    ensures Size(r.1) == Size(s) - 1
    ensures r.1.items + [r.0] == s.items
  {
    (s.items[|s.items| - 1], Stack(s.items[..|s.items| - 1]))
  }

  /** Pushes `xs` in order, so the last element of `xs` ends on top. */
  function PushAll<T>(s: Stack<T>, xs: seq<T>): (r: Stack<T>)
    ensures Size(r) == Size(s) + |xs|
    ensures r.items == s.items + xs
    decreases |xs|
  {
    if xs == [] then s
    else Push(PushAll(s, xs[..|xs| - 1]), xs[|xs| - 1])
  }

  /** Pops `n` elements; answers them in the order they came off. */
  function PopN<T>(s: Stack<T>, n: nat): (r: (seq<T>, Stack<T>))
    requires n <= Size(s)
    ensures |r.0| == n
    ensures Size(r.1) == Size(s) - n
    ensures r.1.items + Reverse(r.0) == s.items
    decreases n
  {
    if n == 0 then ([], s)
    else
      var (x, s') := Pop(s);
      var (ys, s'') := PopN(s', n - 1);
      assert Reverse([x] + ys) == Reverse(ys) + [x] by {
        assert ([x] + ys)[1..] == ys;
      }
      ([x] + ys, s'')
  }

  /** `xs` back to front. */
  function Reverse<T>(xs: seq<T>): (r: seq<T>)
    ensures |r| == |xs|
    ensures forall i :: 0 <= i < |xs| ==> r[i] == xs[|xs| - 1 - i]
    decreases |xs|
  {
    if xs == [] then [] else Reverse(xs[1..]) + [xs[0]]
  }

  /** Popping right after a push answers the pushed element and restores the
      stack exactly. */
  lemma PopAfterPush<T>(s: Stack<T>, x: T)
    ensures Pop(Push(s, x)) == (x, s)
  {
  }

  /** Pushing back what was just popped restores the stack exactly. */
  lemma PushAfterPop<T>(s: Stack<T>)
    requires Size(s) > 0
    ensures Push(Pop(s).1, Pop(s).0) == s
  {
  }

  /** LIFO order: after pushing `xs`, popping as many elements answers them in
      reverse order and restores the original stack. */
  lemma {:induction false} PopNAfterPushAll<T>(s: Stack<T>, xs: seq<T>)
    ensures PopN(PushAll(s, xs), |xs|) == (Reverse(xs), s)
    decreases |xs|
  {
    if xs != [] {
      var init, last := xs[..|xs| - 1], xs[|xs| - 1];
      var below := PushAll(s, init);
      assert PushAll(s, xs) == Push(below, last);
      PopAfterPush(below, last);
      PopNAfterPushAll(s, init);
      assert PopN(below, |init|) == (Reverse(init), s);
      assert PopN(PushAll(s, xs), |xs|) == ([last] + Reverse(init), s);
      assert xs == init + [last];
      ReverseSnoc(init, last);
    }
  }

  /** Reversing `xs + [x]` puts `x` first, followed by `xs` reversed. */
  lemma ReverseSnoc<T>(xs: seq<T>, x: T)
    ensures Reverse(xs + [x]) == [x] + Reverse(xs)
  {
  }
}
