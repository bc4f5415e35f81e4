# Fail-fast generic enumerator and copy-on-write builders

This project models two small pieces of a managed runtime's test corpus in Dafny and proves their
behaviour.

**The generic-enumeration benchmark** (`Benchmark.cs`). `GenericEnumerator` walks a collection
from a begin position to an end position. It keeps three mutable fields: the version it captured,
the current element and the position. `MoveNext` yields the element at the position and steps
forward. It returns false once the position equals the end. It throws `InvalidOperationException`
once the collection's version no longer matches the captured one. `Reset` restarts the walk and
recaptures the version. `Dispose` resets and then sets the captured version to -1.
`ArrayEnumerator` supplies the operations for arrays:
- the position is an `int`;
- the step is +1;
- the version is always 0;
- a value is read by indexing, which throws outside the array.

The model is in two modules:
- `EnumeratorSpec` states the enumerator as a pure state machine. It proves the properties: elements
  come out in order, each exactly once; the loop terminates; the enumerator stays finished; a stale
  version always throws; a disposed enumerator throws.
- `GenericEnumeration` holds a class with the struct's collection, begin, end, version, current
  and position fields. It has no field for the operations record (`m_operations`): the array
  operations are module-level functions. It adds a field `defaultValue` for `default(T)`. Each of
  its methods is proved against the state machine. The module also holds the benchmark's drain loop.

**The variance-test builders** (`variance_emit.cs`). `ImmutableArray.Add` is a persistent append.
`ParameterBuilder` and `SignatureBuilder` are immutable records: every setter or adder returns a
new record with one field replaced. These are datatypes in module `VarianceBuilders`.
`System.Type` is the type parameter `Ty`.

**The type-builder name counter**. `OverrideTheory.NextTypeBuilderName` returns
`TypeBuilder_<n>` and then post-increments `n`. The counter is a C# `int` incremented in an
unchecked context, so the model wraps it explicitly from 2^31 - 1 to -2^31. Module
`TypeBuilderNames` proves that the first 2^32 names are pairwise distinct.

A fail-fast enumerator is usually described as failing on any change to its collection. This
one fails only when the collection's version changes. An array's version is the constant 0
(`Benchmark.cs:114`), so a write into the array during enumeration is never detected; the model
keeps that behaviour. The only way to reach the mismatch path is `Dispose`. As in the code, the
model reads the array's contents at each `MoveNext`.

`default(T)` has no name in Dafny. It is the constructor argument `defaultValue`.

## Model

| member | source | states |
|---|---|---|
| `EnumeratorSpec.GetVersion` | tests/src/JIT/Performance/CodeQuality/Community/GenericEnumeration/Benchmark.cs:114 | An array's version is always 0, whatever its contents |
| `EnumeratorSpec.StepForward` | tests/src/JIT/Performance/CodeQuality/Community/GenericEnumeration/Benchmark.cs:115 | The next array position is the current one plus one |
| `EnumeratorSpec.PositionEquals` | tests/src/JIT/Performance/CodeQuality/Community/GenericEnumeration/Benchmark.cs:112 | Two positions are equal exactly when they are the same integer |
| `EnumeratorSpec.StepAfterReadFitsInt32` | tests/src/JIT/Performance/CodeQuality/Community/GenericEnumeration/Benchmark.cs:115 | The step follows a successful read, so for an array of at most 2^31 - 1 elements the stepped position stays a positive `int` and the unchecked `+ 1` never overflows |
| `EnumeratorSpec.GetValue` | tests/src/JIT/Performance/CodeQuality/Community/GenericEnumeration/Benchmark.cs:113 | Reading an array succeeds exactly when the position is inside it, and yields the element there; outside it, it throws IndexOutOfRange |
| `EnumeratorSpec.Reset` | tests/src/JIT/Performance/CodeQuality/Community/GenericEnumeration/Benchmark.cs:100-104 | Reset puts the position at begin and the current element at the default value, and recaptures the collection's version so the enumerator is in sync |
| `EnumeratorSpec.Dispose` | tests/src/JIT/Performance/CodeQuality/Community/GenericEnumeration/Benchmark.cs:105-108 | After Dispose the position is begin, the current element is the default and the stored version is -1; the next MoveNext throws InvalidOperation and changes nothing |
| `EnumeratorSpec.MoveLast` | tests/src/JIT/Performance/CodeQuality/Community/GenericEnumeration/Benchmark.cs:51-57 | On a version mismatch it throws and leaves the state alone; otherwise it returns false and only resets the current element to the default |
| `EnumeratorSpec.MoveNext` | tests/src/JIT/Performance/CodeQuality/Community/GenericEnumeration/Benchmark.cs:60-95 | The four outcomes, each as an if-and-only-if. InvalidOperation exactly when the version differs, whatever the position. False exactly when in sync and at end. IndexOutOfRange exactly when in sync, not at end and outside the array. Otherwise true, with current = the element at the old position and position + 1. A throw changes nothing; false changes only the current element |
| `EnumeratorSpec.Drain` | tests/src/JIT/Performance/CodeQuality/Community/GenericEnumeration/Benchmark.cs:123-124 | Draining with `while (MoveNext())` terminates from every state, with a measure bounded by the end and the array length; from a stale version it throws InvalidOperation and yields nothing |
| `EnumeratorSpec.DrainYieldsRange` | tests/src/JIT/Performance/CodeQuality/Community/GenericEnumeration/Benchmark.cs:60-95 | From an in-sync position p with 0 <= p <= end <= length, draining yields exactly a[p..end] in order and never indexes out of bounds |
| `EnumeratorSpec.TrueUntilEnd` | tests/src/JIT/Performance/CodeQuality/Community/GenericEnumeration/Benchmark.cs:60-95 | From an in-sync position p with 0 <= p <= end <= length, the next end - p calls of MoveNext return true and the call after them returns false |
| `EnumeratorSpec.EnumeratesInOrder` | tests/src/JIT/Performance/CodeQuality/Community/GenericEnumeration/Benchmark.cs:43-49 | After construction or Reset with 0 <= begin <= end <= length, the first end - begin + 1 calls of MoveNext return true end - begin times and then false, and Current takes a[begin], ..., a[end-1] in order |
| `EnumeratorSpec.FinishedStaysFinished` | tests/src/JIT/Performance/CodeQuality/Community/GenericEnumeration/Benchmark.cs:51-57 | Once at end with a matching version, every one of any number of further MoveNext calls returns false |
| `EnumeratorSpec.StaleVersionAlwaysThrows` | tests/src/JIT/Performance/CodeQuality/Community/GenericEnumeration/Benchmark.cs:52-53 | With a stale version, every one of any number of MoveNext calls throws InvalidOperation, whatever the position |
| `GenericEnumeration.GenericEnumerator.constructor` | tests/src/JIT/Performance/CodeQuality/Community/GenericEnumeration/Benchmark.cs:43-49 | Stores the collection, begin and end, and leaves the state that Reset establishes |
| `GenericEnumeration.GenericEnumerator.Current` | tests/src/JIT/Performance/CodeQuality/Community/GenericEnumeration/Benchmark.cs:97 | Current is the enumerator's current-element field, the one that MoveNext, Reset and Dispose set |
| `GenericEnumeration.GenericEnumerator.MoveLast` | tests/src/JIT/Performance/CodeQuality/Community/GenericEnumeration/Benchmark.cs:51-57 | The outcome and the new fields are those of the specification's MoveLast applied to the old fields |
| `GenericEnumeration.GenericEnumerator.MoveNext` | tests/src/JIT/Performance/CodeQuality/Community/GenericEnumeration/Benchmark.cs:60-95 | The outcome and the new fields are those of the specification's MoveNext on the old fields and the array's contents; the array, begin and end are untouched |
| `GenericEnumeration.GenericEnumerator.Reset` | tests/src/JIT/Performance/CodeQuality/Community/GenericEnumeration/Benchmark.cs:100-104 | The new fields are the specification's Reset state, whatever they were before; after a partial walk, a full pass therefore yields a[begin..end] again |
| `GenericEnumeration.GenericEnumerator.Dispose` | tests/src/JIT/Performance/CodeQuality/Community/GenericEnumeration/Benchmark.cs:105-108 | The new fields are the specification's Dispose state: reset, with the stored version -1 |
| `GenericEnumeration.Bench` | tests/src/JIT/Performance/CodeQuality/Community/GenericEnumeration/Benchmark.cs:118-125 | The drain loop terminates. The exception that ends it, or the values Current took, are exactly the specification's Drain from the enumerator's initial state |
| `GenericEnumeration.RunBench` | tests/src/JIT/Performance/CodeQuality/Community/GenericEnumeration/Benchmark.cs:127-136 | Draining an enumerator over a whole array of 50000 zero integers, from 0 to 50000, never throws, and Current takes the 50000 zeros in order |
| `VarianceBuilders.EmptyArray` | tests/src/Loader/classloader/MethodImpl/variance_emit.cs:22 | A default-constructed immutable array is empty |
| `VarianceBuilders.ImmutableArray.Add` | tests/src/Loader/classloader/MethodImpl/variance_emit.cs:27-33 | The result has length n + 1, its first n elements are the receiver's, and its last is the added element; the receiver is a value and is unchanged |
| `VarianceBuilders.ParameterBuilder.SetName` | tests/src/Loader/classloader/MethodImpl/variance_emit.cs:60-61 | The new record has the given name; type and both modifier lists are carried over |
| `VarianceBuilders.ParameterBuilder.SetType` | tests/src/Loader/classloader/MethodImpl/variance_emit.cs:63-64 | The new record has the given type; name and both modifier lists are carried over |
| `VarianceBuilders.ParameterBuilder.AddOptionalCustomModifier` | tests/src/Loader/classloader/MethodImpl/variance_emit.cs:66-67 | The optional list gains the modifier at its end; name, type and the required list are unchanged |
| `VarianceBuilders.ParameterBuilder.AddRequiredCustomModifier` | tests/src/Loader/classloader/MethodImpl/variance_emit.cs:69-70 | The required list gains the modifier at its end; name, type and the optional list are unchanged |
| `VarianceBuilders.ModifierAddsCommute` | tests/src/Loader/classloader/MethodImpl/variance_emit.cs:66-70 | The two modifier lists are independent: adding an optional then a required modifier gives the same record as the other order |
| `VarianceBuilders.SignatureBuilder.SetName` | tests/src/Loader/classloader/MethodImpl/variance_emit.cs:93-94 | The new signature has the given name; return parameter and parameters are carried over |
| `VarianceBuilders.SignatureBuilder.SetReturnParameter` | tests/src/Loader/classloader/MethodImpl/variance_emit.cs:96-97 | The new signature has the given return parameter; name and parameters are carried over |
| `TypeBuilderNames.Increment32` | tests/src/Loader/classloader/MethodImpl/variance_emit.cs:164 | The unchecked post-increment of an `int`: one more below 2^31 - 1, wrapping from 2^31 - 1 to -2^31, and always in the 32-bit range |
| `TypeBuilderNames.Wrap32` | tests/src/Loader/classloader/MethodImpl/variance_emit.cs:132 | The counter's value after k increments from 0 is always in the 32-bit range |
| `TypeBuilderNames.Digit` | tests/src/Loader/classloader/MethodImpl/variance_emit.cs:164 | The character for a digit 0..9 is a decimal digit whose code is that many past '0' |
| `TypeBuilderNames.NatToDecimal` | tests/src/Loader/classloader/MethodImpl/variance_emit.cs:164 | A natural is formatted as at least one decimal digit; it is a single digit exactly when the number is below 10 |
| `TypeBuilderNames.IntToDecimal` | tests/src/Loader/classloader/MethodImpl/variance_emit.cs:164 | An `int` is formatted with a leading '-' exactly when it is negative, followed by the digits of its magnitude; a non-negative one is just its digits |
| `TypeBuilderNames.TypeBuilderName` | tests/src/Loader/classloader/MethodImpl/variance_emit.cs:164 | Every name starts with `TypeBuilder_` and has at least one character after it |
| `TypeBuilderNames.NatToDecimalInjective` | tests/src/Loader/classloader/MethodImpl/variance_emit.cs:164 | Decimal formatting of naturals is injective |
| `TypeBuilderNames.TypeBuilderNameInjective` | tests/src/Loader/classloader/MethodImpl/variance_emit.cs:163-164 | Distinct counter values, negative ones included, give distinct names |
| `TypeBuilderNames.Wrap32Below` | tests/src/Loader/classloader/MethodImpl/variance_emit.cs:164 | Iterating the unchecked 32-bit post-increment k < 2^32 times from 0 gives k up to 2^31 - 1, and k - 2^32 (negative) beyond |
| `TypeBuilderNames.NamesDistinct` | tests/src/Loader/classloader/MethodImpl/variance_emit.cs:163-164 | The names of calls i < j < 2^32 differ |
| `TypeBuilderNames.OverrideTheory.constructor` | tests/src/Loader/classloader/MethodImpl/variance_emit.cs:132 | The counter starts at 0 and no name has been issued |
| `TypeBuilderNames.OverrideTheory.NextTypeBuilderName` | tests/src/Loader/classloader/MethodImpl/variance_emit.cs:163-164 | Returns `TypeBuilder_` followed by the old counter, then increments the counter with 32-bit wrap-around. The name is appended to the names issued so far and differs from all of them while fewer than 2^32 have been issued |

## Left out

- The enumerator is specialised to `ArrayEnumerator`, the only operations record the benchmark instantiates. The generic `IGenericEnumerator` interface over other collections and position types is not modelled.
- `GenericEnumerator.Current` and the boxed `IEnumerator.Current` are a plain field read, `Current()`, in the model. Boxing is not modelled.
- `Bench` receives the struct by value in C#, so the caller's copy never moves. The model's `Bench` advances the caller's object instead.
- Positions are unbounded integers. A C# array has fewer than 2^31 elements, and a position is stepped only after a successful index. So the +1 step never overflows in the source, and no 32-bit wrap is needed there.
- `Test`, both `Main` methods, the xunit-performance measurement, the iteration constants and the assembly attributes are benchmark plumbing with no behaviour to model.
- `ImmutableArray.Add` is modelled on sequences. The fresh backing array and `Array.Copy` are not modelled step by step. The implicit conversion to `T[]` is exposed as the field `items` of type `seq`, so aliasing the internal array and mutating through the alias are not captured.
- The parameterless `ParameterBuilder` and `SignatureBuilder` constructors leave their fields null. Only fully initialised records are modelled; the null-reference failure of their adders is not.
- `SignatureBuilder`'s full constructor is private, and its public one leaves every field null. Nothing sets its parameter list, because `AddParameter` does not compile. So the program never creates a fully initialised `SignatureBuilder`: the model's `SignatureBuilder` values, to which `SetName` and `SetReturnParameter` apply, stand for states the program cannot reach.
- Null inputs are not modelled. The collection is a non-null `array`, so the NullReferenceException a null collection raises in `MoveNext` when begin differs from end is not captured. Names are non-null strings, so `SetName(null)` is not captured either.
- `SignatureBuilder.AddParameter` refers to a member `m_type` that does not exist, so its intended behaviour cannot be determined. It is not modelled.
- `OverrideBuilder` does not compile: its properties are declared `readonly`, and its setters return `MethodBuilder` values built from `new OverrideBuilder`. It is not modelled.
- The `OverrideTheory` constructor computes the theory's name with reflection and a string replace (`GetType().FullName.Replace(".", "_")`). It is not modelled.
- `DefineDynamicAssembly`, `DefineDynamicModule`, `CreateAbstractType` and `DefineType` call into the runtime's reflection-emission facility, and are not modelled; only the name counter is. `DefineDynamicModule` and `DefineType` are instance methods called through a type name, so `OverrideTheory` does not compile as written either. The commented-out bodies implement nothing.
- `IntToDecimal` assumes the invariant culture's minus sign, "-". Culture-dependent number formatting is not modelled.
