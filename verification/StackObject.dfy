/** The host's stack object: a LIFO stack of values with three methods that
    report its size, push an argument and pop the top, resolved by exact method
    name. */
module StackObject {
  import opened Wrappers
  import opened Values
  import opened Functions
  import Lifo

  /** The stack's methods. */
  datatype StackMethod = GetSize | Push | Pop

  /** The object's whole state: its contents. */
  datatype StackState = StackState(contents: Lifo.Stack<Value>)

  /** One method call with the arguments it was given. */
  type StackCall = MethodCall<StackMethod>

  /** The names under which the stack resolves a method. */
  const MethodNames: set<string> := {"GetSize", "Push", "Pop"}

  /** The state of the object the `CreateStack` native returns; its arguments are
      ignored. */
  function CreateStack(args: seq<Value>): StackState
  {
    StackState(Lifo.Empty())
  }

  /** The name under which `GetFunction` resolves method `m`. */
  function MethodName(m: StackMethod): (name: string)
    ensures name in MethodNames
  {
    match m
    case GetSize => "GetSize"
    case Push => "Push"
    case Pop => "Pop"
  }

  /** Method lookup: a method for exactly the three names (case-sensitive), none
      for any other name; a found method is the one carrying that name. */
  function GetFunction(name: string): (r: Option<StackMethod>)
    ensures r.Some? <==> name in MethodNames
    ensures r.Some? ==> MethodName(r.value) == name
  {
    if name == "GetSize" then Some(GetSize)
    else if name == "Push" then Some(Push)
    else if name == "Pop" then Some(Pop)
    else None
  }

  /** Where the host's method bodies are defined: `Push` reads its first
      argument, so it needs one; `Pop` reads the top, so it needs a non-empty
      stack. `GetSize` is always defined. */
  predicate Defined(m: StackMethod, s: StackState, args: seq<Value>)
  {
    match m
    case GetSize => true
    case Push => |args| >= 1
    case Pop => Lifo.Size(s.contents) > 0
  }

  /** Running one method. `GetSize` answers the number of elements and changes
      nothing; `Push` appends the first argument only and answers Void; `Pop`
      answers the top element and removes exactly that element. */
  function Apply(m: StackMethod, s: StackState, args: seq<Value>): (r: (Value, StackState))
    requires Defined(m, s, args)
    ensures m == GetSize ==> r == (Number(|s.contents.items| as real), s)
    ensures m == Push ==> r.0 == Void && r.1.contents.items == s.contents.items + [args[0]]
    ensures m == Pop ==> r.1.contents.items + [r.0] == s.contents.items
  {
    match m
    case GetSize => (Number(Lifo.Size(s.contents) as real), s)
    case Push => (Void, StackState(Lifo.Push(s.contents, args[0])))
    case Pop =>
      var (top, rest) := Lifo.Pop(s.contents);
      (top, StackState(rest))
  }

  /** The callable the object hands out for method `m`; it is defined where the
      method body is. */
  function AsFunction(m: StackMethod): SyncFunction<StackState>
  {
    SyncFunction((s: StackState, args: seq<Value>) requires Defined(m, s, args) => Apply(m, s, args))
  }

  /** Whether every call of `calls`, run in order from `s`, is defined. */
  predicate RunDefined(calls: seq<StackCall>, s: StackState)
    decreases |calls|
  {
    calls == []
    || (Defined(calls[0].op, s, calls[0].args)
        && RunDefined(calls[1..], Apply(calls[0].op, s, calls[0].args).1))
  }

  /** The state after a sequence of defined method calls, in order. */
  function Run(calls: seq<StackCall>, s: StackState): StackState
    requires RunDefined(calls, s)
    decreases |calls|
  {
    if calls == [] then s
    else Run(calls[1..], Apply(calls[0].op, s, calls[0].args).1)
  }

  /** What each call of a defined sequence answered, in order. */
  function Answers(calls: seq<StackCall>, s: StackState): (r: seq<Value>)
    requires RunDefined(calls, s)
    ensures |r| == |calls|
    decreases |calls|
  {
    if calls == [] then []
    else
      var (v, s') := Apply(calls[0].op, s, calls[0].args);
      [v] + Answers(calls[1..], s')
  }

  /** One `Push` call per element of `xs`, each with that element as its only
      argument. */
  function PushCalls(xs: seq<Value>): (r: seq<StackCall>)
    ensures |r| == |xs|
    ensures forall i :: 0 <= i < |xs| ==> r[i] == MethodCall(Push, [xs[i]])
  {
    seq(|xs|, i requires 0 <= i < |xs| => MethodCall(Push, [xs[i]]))
  }

  /** `n` argument-less `Pop` calls. */
  function PopCalls(n: nat): (r: seq<StackCall>)
    ensures |r| == n
    ensures forall i :: 0 <= i < n ==> r[i] == MethodCall(Pop, [])
  {
    seq(n, i => MethodCall(Pop, []))
  }

  /** Calling a resolved method through the function interface completes
      immediately with the method's value and new state. */
  lemma CallIsImmediate(m: StackMethod, s: StackState, args: seq<Value>)
    requires Defined(m, s, args)
    ensures Call(AsFunction(m), s, args) == (Immediate(Apply(m, s, args).0), Apply(m, s, args).1)
  {
  }

  /** Lookup and naming are inverse: a name resolves to `m` exactly when it is
      `m`'s name. */
  lemma GetFunctionIffName(name: string, m: StackMethod)
    ensures GetFunction(name) == Some(m) <==> MethodName(m) == name
  {
  }

  /** A fresh stack has size zero, whatever arguments either call received. */
  lemma FreshStackSizeZero(createArgs: seq<Value>, args: seq<Value>)
    ensures Apply(GetSize, CreateStack(createArgs), args) == (Number(0.0), CreateStack(createArgs))
  {
  }

  /** `Push` ignores every argument after the first. */
  lemma PushIgnoresExtraArgs(s: StackState, args: seq<Value>)
    requires |args| >= 1
    ensures Apply(Push, s, args) == Apply(Push, s, args[..1])
  {
  }

  /** A `Push(v)` followed by a `Pop` answers `v` and restores the contents
      exactly. */
  lemma PopAfterPush(s: StackState, pushArgs: seq<Value>, popArgs: seq<Value>)
    requires |pushArgs| >= 1
    ensures Defined(Pop, Apply(Push, s, pushArgs).1, popArgs)
    ensures Apply(Pop, Apply(Push, s, pushArgs).1, popArgs) == (pushArgs[0], s)
  {
  }

  /** After any defined sequence of calls, the size has grown by the number of
      pushes minus the number of pops. */
  lemma {:induction false} RunSize(calls: seq<StackCall>, s: StackState)
    requires RunDefined(calls, s)
    ensures Lifo.Size(Run(calls, s).contents) == Lifo.Size(s.contents) + Count(calls, Push) - Count(calls, Pop)
    decreases |calls|
  {
    if calls != [] {
      RunSize(calls[1..], Apply(calls[0].op, s, calls[0].args).1);
    }
  }

  /** On a stack created by `CreateStack`, `GetSize` after any defined sequence
      of calls answers the number of pushes minus the number of pops. */
  lemma FreshStackSizeAfterCalls(createArgs: seq<Value>, calls: seq<StackCall>, args: seq<Value>)
    requires RunDefined(calls, CreateStack(createArgs))
    ensures Apply(GetSize, Run(calls, CreateStack(createArgs)), args).0 == Number((Count(calls, Push) - Count(calls, Pop)) as real)
  {
    RunSize(calls, CreateStack(createArgs));
  }

  /** Running two sequences back to back is running the first, then the second
      from where the first left off; the answers are concatenated. */
  lemma {:induction false} RunAppend(a: seq<StackCall>, b: seq<StackCall>, s: StackState)
    requires RunDefined(a, s)
    ensures RunDefined(a + b, s) <==> RunDefined(b, Run(a, s))
    ensures RunDefined(a + b, s) ==> Run(a + b, s) == Run(b, Run(a, s))
    ensures RunDefined(a + b, s) ==> Answers(a + b, s) == Answers(a, s) + Answers(b, Run(a, s))
    decreases |a|
  {
    if a == [] {
      assert a + b == b;
    } else {
      var s' := Apply(a[0].op, s, a[0].args).1;
      assert (a + b)[0] == a[0];
      assert (a + b)[1..] == a[1..] + b;
      RunAppend(a[1..], b, s');
    }
  }

  /** Pushing the elements of `xs` one call at a time is always defined, pushes
      them in order on the contents and answers Void each time. */
  lemma {:induction false} RunPushCalls(xs: seq<Value>, s: StackState)
    ensures RunDefined(PushCalls(xs), s)
    ensures Run(PushCalls(xs), s).contents == Lifo.PushAll(s.contents, xs)
    ensures Answers(PushCalls(xs), s) == seq(|xs|, i => Void)
    decreases |xs|
  {
    if xs == [] {
      assert PushCalls(xs) == [];
    } else {
      var init, last := xs[..|xs| - 1], xs[|xs| - 1];
      var one := [MethodCall(Push, [last])];
      assert PushCalls(xs) == PushCalls(init) + one;
      RunPushCalls(init, s);
      var mid := Run(PushCalls(init), s);
      assert RunDefined(one, mid) by {
        assert one[1..] == [];
      }
      assert Run(one, mid) == Apply(Push, mid, [last]).1 by {
        assert one[1..] == [];
      }
      assert Answers(one, mid) == [Void] by {
        assert one[1..] == [];
      }
      RunAppend(PushCalls(init), one, s);
    }
  }

  /** `n` `Pop` calls on a stack of at least `n` elements are defined, and they
      pop exactly what popping `n` elements off the contents pops. */
  lemma {:induction false} RunPopCalls(n: nat, s: StackState)
    requires n <= Lifo.Size(s.contents)
    ensures RunDefined(PopCalls(n), s)
    ensures Run(PopCalls(n), s).contents == Lifo.PopN(s.contents, n).1
    ensures Answers(PopCalls(n), s) == Lifo.PopN(s.contents, n).0
    decreases n
  {
    if n > 0 {
      var s' := Apply(Pop, s, []).1;
      assert PopCalls(n)[1..] == PopCalls(n - 1);
      RunPopCalls(n - 1, s');
    }
  }

  /** LIFO at the object level: pushing `xs` by method calls and then calling
      `Pop` as many times answers Void per push, then the elements of `xs` from
      last to first, and leaves the stack exactly as it was. */
  lemma PushesThenPops(xs: seq<Value>, s: StackState)
    ensures RunDefined(PushCalls(xs) + PopCalls(|xs|), s)
    ensures Run(PushCalls(xs) + PopCalls(|xs|), s) == s
    ensures Answers(PushCalls(xs) + PopCalls(|xs|), s) == seq(|xs|, i => Void) + Lifo.Reverse(xs)
  {
    RunPushCalls(xs, s);
    var mid := Run(PushCalls(xs), s);
    RunPopCalls(|xs|, mid);
    Lifo.PopNAfterPushAll(s.contents, xs);
    RunAppend(PushCalls(xs), PopCalls(|xs|), s);
  }
}
