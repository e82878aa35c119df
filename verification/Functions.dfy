/** The call protocol of host-side callables: a call either completes at once with
    a value, or asks the virtual machine to run a script function. */
module Functions {
  import opened Values

  /** Result of calling any function: a finished value, or a request that the
      caller transfer control to the script function at `entry` with `args`. */
  datatype CallOrImmediate =
    | Immediate(value: Value)
    | Invoke(entry: nat, args: seq<Value>)

  /** A host computation wrapped as a callable (the host's `GenericSyncFunction`).
      The host lambdas capture the object they belong to and update it in place;
      here that object's state is passed in and the new state is handed back
      together with the value. A computation the host leaves undefined on some
      inputs is a partial function whose precondition says where it is defined. */
  datatype SyncFunction<!S> = SyncFunction(fn: (S, seq<Value>) --> (Value, S))

  /** One method call on a host object: which method, with which arguments. */
  datatype MethodCall<M> = MethodCall(op: M, args: seq<Value>)

  /** How many of `calls` are calls of method `m`. */
  function Count<M(==)>(calls: seq<MethodCall<M>>, m: M): nat
    decreases |calls|
  {
    if calls == [] then 0
    else (if calls[0].op == m then 1 else 0) + Count(calls[1..], m)
  }

  /** Calling a synchronous function always completes immediately with exactly
      what the wrapped computation produced, and never requests a script call. */
  function Call<S>(f: SyncFunction<S>, s: S, args: seq<Value>): (r: (CallOrImmediate, S))
    requires f.fn.requires(s, args)
    ensures r.0.Immediate?
    ensures r.0.value == f.fn(s, args).0
    ensures r.1 == f.fn(s, args).1
  {
    var (v, s') := f.fn(s, args);
    (Immediate(v), s')
  }
}
