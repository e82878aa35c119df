/** The host's counter object: a number starting at zero with three methods that
    read it, increment it and decrement it, resolved by exact method name. */
module Counter {
  import opened Wrappers
  import opened Values
  import opened Functions

  /** The counter's methods. */
  datatype CounterMethod = GetValue | Increment | Decrement

  /** The object's whole state: the counter itself. The host keeps it in a
      double; it only ever moves by one from zero, so below 2^53 it is an exact
      integer and is modelled as one (`DriftBounded` bounds how far it moves). */
  datatype CounterState = CounterState(counter: int)

  /** One method call with the arguments it was given. */
  type CounterCall = MethodCall<CounterMethod>

  /** The names under which the counter resolves a method. */
  const MethodNames: set<string> := {"GetValue", "Increment", "Decrement"}

  /** The state of the object the `CreateCounter` native returns; its arguments
      are ignored. */
  function CreateCounter(args: seq<Value>): CounterState
  {
    CounterState(0)
  }

  /** The name under which `GetFunction` resolves method `m`. */
  function MethodName(m: CounterMethod): (name: string)
    ensures name in MethodNames
  {
    match m
    case GetValue => "GetValue"
    case Increment => "Increment"
    case Decrement => "Decrement"
  }

  /** Method lookup: a method for exactly the three names (case-sensitive), none
      for any other name; a found method is the one carrying that name. */
  function GetFunction(name: string): (r: Option<CounterMethod>)
    ensures r.Some? <==> name in MethodNames
    ensures r.Some? ==> MethodName(r.value) == name
  {
    if name == "GetValue" then Some(GetValue)
    else if name == "Increment" then Some(Increment)
    else if name == "Decrement" then Some(Decrement)
    else None
  }

  /** Running one method: every method answers the counter as it stands after
      the call (increment and decrement are pre-increment/pre-decrement);
      `GetValue` leaves the state alone, the other two move it by one. The
      arguments are never looked at. */
  function Apply(m: CounterMethod, s: CounterState, args: seq<Value>): (r: (Value, CounterState))
    ensures r.0 == Number(r.1.counter as real)
    ensures m == GetValue ==> r.1 == s
    ensures m == Increment ==> r.1.counter == s.counter + 1
    ensures m == Decrement ==> r.1.counter == s.counter - 1
  {
    match m
    case GetValue => (Number(s.counter as real), s)
    case Increment => (Number((s.counter + 1) as real), CounterState(s.counter + 1))
    case Decrement => (Number((s.counter - 1) as real), CounterState(s.counter - 1))
  }

  /** The callable the object hands out for method `m`. */
  function AsFunction(m: CounterMethod): SyncFunction<CounterState>
  {
    SyncFunction((s: CounterState, args: seq<Value>) => Apply(m, s, args))
  }

  /** The state after a sequence of method calls, in order. */
  function Run(calls: seq<CounterCall>, s: CounterState): CounterState
    decreases |calls|
  {
    if calls == [] then s
    else Run(calls[1..], Apply(calls[0].op, s, calls[0].args).1)
  }

  /** Calling a resolved method through the function interface completes
      immediately, answering the counter it leaves behind. */
  lemma CallIsImmediate(m: CounterMethod, s: CounterState, args: seq<Value>)
    ensures Call(AsFunction(m), s, args).0 == Immediate(Number(Call(AsFunction(m), s, args).1.counter as real))
    ensures Call(AsFunction(m), s, args).1 == Apply(m, s, args).1
  {
  }

  /** Lookup and naming are inverse: a name resolves to `m` exactly when it is
      `m`'s name. */
  lemma GetFunctionIffName(name: string, m: CounterMethod)
    ensures GetFunction(name) == Some(m) <==> MethodName(m) == name
  {
  }

  /** A fresh counter reads zero, whatever arguments either call received. */
  lemma FreshCounterReadsZero(createArgs: seq<Value>, args: seq<Value>)
    ensures Apply(GetValue, CreateCounter(createArgs), args) == (Number(0.0), CreateCounter(createArgs))
  {
  }

  /** Increment and decrement undo each other, in either order. */
  lemma IncrementDecrementInverse(s: CounterState, a: seq<Value>, b: seq<Value>)
    ensures Apply(Decrement, Apply(Increment, s, a).1, b).1 == s
    ensures Apply(Increment, Apply(Decrement, s, a).1, b).1 == s
  {
  }

  /** After any sequence of calls the counter has moved by the number of
      increments minus the number of decrements. */
  lemma {:induction false} RunCounts(calls: seq<CounterCall>, s: CounterState)
    ensures Run(calls, s).counter == s.counter + Count(calls, Increment) - Count(calls, Decrement)
    decreases |calls|
  {
    if calls != [] {
      RunCounts(calls[1..], Apply(calls[0].op, s, calls[0].args).1);
    }
  }

  /** Increments and decrements together are at most all the calls. */
  lemma {:induction false} CountsBounded(calls: seq<CounterCall>)
    ensures Count(calls, Increment) + Count(calls, Decrement) <= |calls|
    decreases |calls|
  {
    if calls != [] {
      CountsBounded(calls[1..]);
    }
  }

  /** A counter created by `CreateCounter` holds, after any calls, the number of
      increments minus the number of decrements. */
  lemma FreshCounterAfterCalls(createArgs: seq<Value>, calls: seq<CounterCall>)
    ensures Run(calls, CreateCounter(createArgs)).counter == Count(calls, Increment) - Count(calls, Decrement)
  {
    RunCounts(calls, CreateCounter(createArgs));
  }

  /** The counter moves at most one per call, so after fewer than 2^53 calls from
      creation its magnitude stays below 2^53, where the host's double is exact. */
  lemma {:induction false} DriftBounded(calls: seq<CounterCall>, s: CounterState)
    ensures s.counter - |calls| <= Run(calls, s).counter <= s.counter + |calls|
  {
    RunCounts(calls, s);
    CountsBounded(calls);
  }
}
