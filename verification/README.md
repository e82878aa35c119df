# LoLa host-side callables and objects, in Dafny

This project models the host-side part of LoLa's native runtime glue: the
callables and objects a host program registers for scripts to use.

- **`GenericSyncFunction`** wraps a host computation as a `Function`. Calling
  it always completes synchronously with the computed value (`Immediate`). It
  never asks the virtual machine to run a script function (`Invoke`).
- **`CounterObject`** holds a counter that starts at zero. It has the methods
  `GetValue`, `Increment` (pre-increment, answers the new value) and
  `Decrement` (pre-decrement, answers the new value).
- **`StackObject`** holds a LIFO stack of values. It has the methods `GetSize`,
  `Push` (appends the first argument, answers Void) and `Pop` (removes and
  answers the top element).
- Both objects resolve their methods with `getFunction`, by exact,
  case-sensitive name. Any other name gives an empty optional.
- The `CreateCounter` and `CreateStack` natives produce fresh objects.

Modules, in dependency order:

- `Wrappers` holds `Option`, the empty or present result of a lookup.
- `Values` holds the tagged runtime `Value`.
- `Functions` holds the call result `CallOrImmediate` and `SyncFunction<S>`, the
  wrapped host computation. The host lambdas capture their object and update it
  in place. In the model, the object's state `S` is passed in explicitly and the
  new state is returned with the value. It also holds `MethodCall<M>`, one
  method call with its arguments, and `Count`, which counts the calls of one
  method in a sequence; both objects use them.
- `Counter` models the counter object: its state, method lookup, the transition
  `Apply(method, state, args)` and runs of many calls.
- `Lifo` is a generic stack `Stack<T>`, whose type parameter is the element
  type. It gives the `push_back`/`back`/`pop_back` behaviour the stack object
  relies on.
- `StackObject` models the stack object on top of `Lifo.Stack<Value>`.

Stated assumptions:

- Script numbers are `double`s in the host. A `Value`'s number is a real here,
  so any number a script pushes, such as 0.5, is stored and popped back
  unchanged. The host counter is a `double` too, but it is modelled as an
  integer, reported as a real. It only takes integer values reached in steps
  of one from zero, and a double holds these exactly below 2^53. The same
  holds for `GetSize`'s container length. `Counter.DriftBounded` shows the counter moves at most one per
  call. So the assumption holds for any object that has received fewer than
  2^53 calls.
- In the host, `Pop` on an empty stack is undefined (`back()` of an empty
  vector). `Push` with no argument is also undefined (it reads `a[0]`). Neither
  is an error the host reports, so both are preconditions here
  (`StackObject.Defined`), not error results.

## Model

| member | source | states |
|---|---|---|
| `Functions.Call` | NativeLoLa/lolacore.cpp:25-28 | calling a wrapped host computation always yields `Immediate` of exactly the value the computation produced, with the state it left, and never an `Invoke` request |
| `Counter.Apply` | NativeLoLa/lolacore.cpp:37-43 | every counter method answers the counter as it stands after the call; `GetValue` leaves the state unchanged, `Increment` adds one, `Decrement` subtracts one; arguments play no part |
| `Counter.MethodName` | NativeLoLa/lolacore.cpp:47-55 | each counter method carries one of the three names the lookup accepts |
| `Counter.GetFunction` | NativeLoLa/lolacore.cpp:45-57 | lookup finds a method exactly for "GetValue", "Increment" and "Decrement" (case-sensitive), and nothing for any other name; a found method carries the name looked up |
| `Counter.GetFunctionIffName` | NativeLoLa/lolacore.cpp:45-57 | a name resolves to a method if and only if it is that method's name |
| `Counter.CallIsImmediate` | NativeLoLa/lolacore.cpp:35-40 | calling a counter method through the function interface completes immediately, answering the counter it leaves behind, with the same new state as the method |
| `Counter.FreshCounterReadsZero` | NativeLoLa/lolacore.cpp:123-126 | a counter from `CreateCounter` reads 0 whatever the arguments, and reading it changes nothing |
| `Counter.IncrementDecrementInverse` | NativeLoLa/lolacore.cpp:39-40 | increment followed by decrement, and decrement followed by increment, restore the original counter |
| `Counter.RunCounts` | NativeLoLa/lolacore.cpp:33-40 | after any sequence of calls the counter has moved by the number of increments minus the number of decrements |
| `Counter.CountsBounded` | NativeLoLa/lolacore.cpp:38-40 | at most one of increment or decrement is counted per call |
| `Counter.FreshCounterAfterCalls` | NativeLoLa/lolacore.cpp:123-126 | a counter created by `CreateCounter` equals the number of increments minus the number of decrements after any sequence of calls |
| `Counter.DriftBounded` | NativeLoLa/lolacore.cpp:33-40 | after n calls the counter is within n of where it started |
| `Lifo.Push` | NativeLoLa/lolacore.cpp:69 | pushing puts the element on top, grows the size by one and keeps every element below |
| `Lifo.Pop` | NativeLoLa/lolacore.cpp:70-74 | popping a non-empty stack answers the top element, removes it, and leaves everything else in place |
| `Lifo.PushAll` | NativeLoLa/lolacore.cpp:69 | pushing a sequence leaves the original elements at the bottom with the pushed ones on top, in push order |
| `Lifo.PopN` | NativeLoLa/lolacore.cpp:70-74 | popping n elements answers n elements; the remaining stack followed by them in reverse is the original stack |
| `Lifo.Reverse` | NativeLoLa/lolacore.cpp:70-74 | the order in which popped elements come off, back to front: same length, element i is element n-1-i of the input |
| `Lifo.PopAfterPush` | NativeLoLa/lolacore.cpp:69-74 | a pop right after a push answers the pushed element and restores the stack exactly |
| `Lifo.PushAfterPop` | NativeLoLa/lolacore.cpp:69-74 | pushing back what was just popped restores the stack exactly |
| `Lifo.PopNAfterPushAll` | NativeLoLa/lolacore.cpp:63-74 | LIFO order: after pushing a sequence, popping as many elements answers them in reverse and restores the original stack |
| `Lifo.ReverseSnoc` | NativeLoLa/lolacore.cpp:70-74 | the sequence identity behind pop order: reversing `xs + [x]` gives `x` followed by `xs` reversed |
| `StackObject.Apply` | NativeLoLa/lolacore.cpp:67-74 | `GetSize` answers the element count and changes nothing; `Push` appends only its first argument and answers Void; `Pop` answers the top element and removes exactly that one |
| `StackObject.MethodName` | NativeLoLa/lolacore.cpp:81-89 | each stack method carries one of the three names the lookup accepts |
| `StackObject.GetFunction` | NativeLoLa/lolacore.cpp:79-91 | lookup finds a method exactly for "GetSize", "Push" and "Pop" (case-sensitive), and nothing for any other name; a found method carries the name looked up |
| `StackObject.GetFunctionIffName` | NativeLoLa/lolacore.cpp:79-91 | a name resolves to a method if and only if it is that method's name |
| `StackObject.CallIsImmediate` | NativeLoLa/lolacore.cpp:65-74 | calling a stack method through the function interface, where it is defined, completes immediately with that method's value and new state |
| `StackObject.FreshStackSizeZero` | NativeLoLa/lolacore.cpp:127-130 | a stack from `CreateStack` has size 0 whatever the arguments, and asking changes nothing |
| `StackObject.PushIgnoresExtraArgs` | NativeLoLa/lolacore.cpp:69 | `Push` behaves the same when every argument after the first is dropped |
| `StackObject.PopAfterPush` | NativeLoLa/lolacore.cpp:69-74 | after `Push(v)`, `Pop` is defined, answers v and restores the contents exactly |
| `StackObject.RunSize` | NativeLoLa/lolacore.cpp:63-74 | after any defined sequence of calls the size has grown by the number of pushes minus the number of pops |
| `StackObject.FreshStackSizeAfterCalls` | NativeLoLa/lolacore.cpp:127-130 | on a stack from `CreateStack`, `GetSize` after any defined sequence of calls answers the number of pushes minus the number of pops |
| `StackObject.RunAppend` | NativeLoLa/lolacore.cpp:61-92 | method calls compose: a sequence followed by another is defined, ends and answers exactly as running the first and then the second from where it left off |
| `StackObject.RunPushCalls` | NativeLoLa/lolacore.cpp:69 | pushing elements one call at a time is always defined, stacks them in order on the contents and answers Void for each |
| `StackObject.RunPopCalls` | NativeLoLa/lolacore.cpp:70-74 | n `Pop` calls on a stack of at least n elements are defined, answer the top n elements from the top down and remove exactly those |
| `StackObject.PushesThenPops` | NativeLoLa/lolacore.cpp:61-92 | LIFO at the object level: pushing values by method calls and then popping as many times answers them last to first and restores the stack exactly |

## Left out

- `LoLa::verify` (NativeLoLa/lolacore.cpp:94-157) is left out. It parses, compiles, disassembles to standard output and drives the virtual machine. The parser, compiler, disassembler and virtual machine are not part of this model.
- The `Print` native (NativeLoLa/lolacore.cpp:112-122) is left out. It is console output, and how a `Value` is printed is not part of this model.
- The `RealGlobal` and `ReadOnlyGlobal` registrations (NativeLoLa/lolacore.cpp:132-138) are left out. Only registration data is visible; the environment that gives it meaning is not part of this model.
- Object identity, `new` allocation and the `ObjectRef` wrapping done by `CreateCounter`/`CreateStack` are left out. These are memory management. The factories are modelled as the fresh state of the new object.
- How the virtual machine dispatches a method call to `getFunction` is left out. So is what it does with a missing method. Both are outside the visible source.
- The `AST` declarations in NativeLoLa/ast.hpp are left out. They are declarations without behaviour.
- IEEE-754 `double` arithmetic of the counter and of `GetSize`'s conversion is left out. Script numbers are reals, with no rounding; the counter and the size are exact integers under the assumption stated above.
- StackObject.Apply: `Pop` on an empty stack and `Push` with no argument are not modelled. The host leaves them undefined, so they are excluded by a precondition.
