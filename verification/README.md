# Toolbelt core in Dafny

A verified model of three utilities from the Toolbelt Android helper library:

- **`Optional<T>`** (module `Optionals`): a value that is present (`Some`) or absent (`None`). It is built from a possibly-null Java reference by `with`, or as `empty()`. It offers `get`, `getOrElse`, `or`, `isDefined`/`isEmpty`, `equals` and `toString`.
- **`StringUtilities`** (module `StringUtilities`): the null-or-empty string test, and `makeString`. `makeString` joins a collection as `prefix + e0 + sep + … + sep + e(n-1) + suffix`, and returns `""` for a `null` collection. There is also a two-argument overload.
- **`Timer`** (module `Timer`): a keyed stopwatch over a registry mapping each running key to its start time. It has `start`, `stop` and `time(action)`.

Module `Java` holds the Java semantics these need:
- `Nullable<T>`, a reference that may be `null`;
- `Long` and `WrapLong`, for 64-bit `long` values and two's-complement wrap-around.

Modelling choices:
- Java `null` is the `Null` variant of `Nullable`. It is kept separate from the modelled `Optional`, so `With` is a real conversion.
- `get()` returns a `Result`. The thrown `NoSuchElementException` is modelled as `Err` carrying the source's message.
- `makeString` has two models:
  - the function `MakeString`, a reference definition built from `Join`;
  - the method `BuildString`, which follows the source's StringBuilder loop (append each element, then the separator if `i < size - 1`) and is proved equal to `MakeString`.
  
  `JoinLayout` gives a third, independent view. The result is a list of pieces with elements at even positions and the separator at odd positions, so `n` elements have exactly `n - 1` separators.
- The Timer registry is an explicit `map<string, Long>`, passed in and returned. Each reading of `System.currentTimeMillis()` is a parameter. `start` and `stop` read the previous entry through `Optional.with(map.get(key))`, as the source does, and each reports a `warned` flag where the source logs a warning.
- `time` takes its generated key as a parameter. The action is a function from the registry to what it did: either it returned a result or it threw, and either way it left a registry behind, because an action may use the global timer itself. `time` has no `finally`, so when the action throws, `stop` is skipped and the generated key stays registered. The UUID key being fresh is a hypothesis of `TimeFreshKey`, not a precondition of `Time`: a key collision is modelled as the source behaves (the old entry is overwritten and then removed).
- Durations are `now - start` wrapped to a Java `long`. They equal the plain difference whenever both readings are non-negative. The lemmas about measured durations assume non-negative readings, that is, a wall clock set after 1970; Java does not promise this.

The unit test for `start` only checks that the returned timestamp is at least the time of the call (TimerUnitTest.java line 15). The code returns exactly the clock reading it stores, and the model follows the code.

## Model

| member | source | states |
|---|---|---|
| Java.WrapLong | toolbelt/src/main/java/com/github/mehmetakiftutuncu/toolbelt/Timer.java:104 | The `long` subtraction result is congruent to the exact difference modulo 2^64, lies in the `long` range, and equals the exact difference when that fits |
| Optionals.With | toolbelt/src/main/java/com/github/mehmetakiftutuncu/toolbelt/Optional.java:68-70 | `with(v)` is defined exactly when `v` is non-null, and then `get()` returns `v` |
| Optionals.Empty | toolbelt/src/main/java/com/github/mehmetakiftutuncu/toolbelt/Optional.java:79-81 | `empty()` is empty and its `get()` fails |
| Optionals.Optional.Get | toolbelt/src/main/java/com/github/mehmetakiftutuncu/toolbelt/Optional.java:30-47 | `get()` succeeds exactly when defined and returns the held value; on `None` it throws `NoSuchElementException` with the source's message |
| Optionals.Optional.GetOrElse | toolbelt/src/main/java/com/github/mehmetakiftutuncu/toolbelt/Optional.java:105-107 | Returns what `get()` would return when defined, and the default otherwise |
| Optionals.Optional.Or | toolbelt/src/main/java/com/github/mehmetakiftutuncu/toolbelt/Optional.java:116-118 | Returns the receiver when defined and the alternative otherwise; the result is defined iff either operand is |
| Optionals.Optional.ToString | toolbelt/src/main/java/com/github/mehmetakiftutuncu/toolbelt/Optional.java:34-51 | `None` renders as `None`; a `Some` rendering starts with `Some(`, ends with `)`, and the text in between is the element's rendering |
| Optionals.Equals | toolbelt/src/main/java/com/github/mehmetakiftutuncu/toolbelt/Optional.java:142-150 | `equals(o)` holds exactly when `o` is a non-null optional structurally equal to the receiver: same variant and equal held value |
| Optionals.DefinednessDecides | toolbelt/src/main/java/com/github/mehmetakiftutuncu/toolbelt/Optional.java:127-140 | `isEmpty()` is the negation of `isDefined()`. `isDefined()` holds exactly when `get()` succeeds; then `or` returns the receiver and `getOrElse` the held value. Otherwise `or` returns the alternative, `getOrElse` the default, and the rendering is `None` |
| Optionals.WithGetRoundTrip | toolbelt/src/test/java/com/github/mehmetakiftutuncu/toolbelt/OptionalUnitTest.java:18-38 | `with(v).get()` returns `v` for non-null `v`; `with(null)` equals `empty()`, and its `get()` throws |
| Optionals.OrLaws | toolbelt/src/main/java/com/github/mehmetakiftutuncu/toolbelt/Optional.java:105-118 | `or` is associative with `None` as its two-sided unit, and `getOrElse` distributes over `or` |
| Optionals.EqualsIsEquivalence | toolbelt/src/main/java/com/github/mehmetakiftutuncu/toolbelt/Optional.java:142-150 | `equals` is reflexive, symmetric and transitive; any two `None`s are equal; nothing equals `null` |
| Optionals.ToStringInjective | toolbelt/src/main/java/com/github/mehmetakiftutuncu/toolbelt/Optional.java:34-51 | When element rendering is injective, equal renderings come from equal optionals, so `Some(..)` never renders like `None` |
| Optionals.Examples | toolbelt/src/test/java/com/github/mehmetakiftutuncu/toolbelt/OptionalUnitTest.java:10-70 | The unit tests' expectations hold for the model |
| StringUtilities.IsEmpty | toolbelt/src/main/java/com/github/mehmetakiftutuncu/toolbelt/StringUtilities.java:22-24 | True exactly for `null` and for `""` |
| StringUtilities.MakeString | toolbelt/src/main/java/com/github/mehmetakiftutuncu/toolbelt/StringUtilities.java:47-72 | A `null` collection gives `""`. Otherwise the result starts with the prefix and ends with the suffix. Its length is the prefix, suffix and element lengths plus `max(n-1, 0)` separators. An empty collection gives exactly `prefix + suffix` |
| StringUtilities.BuildString | toolbelt/src/main/java/com/github/mehmetakiftutuncu/toolbelt/StringUtilities.java:51-71 | The builder loop returns `""` for `null`. Otherwise it returns the prefix, then the element/separator pieces in order, then the suffix. This agrees with `MakeString` |
| StringUtilities.MakeStringWithSeparator | toolbelt/src/main/java/com/github/mehmetakiftutuncu/toolbelt/StringUtilities.java:93-95 | The two-argument overload gives `""` for both a `null` and an empty collection, and otherwise gives the elements joined by the separator alone |
| StringUtilities.JoinAppend | toolbelt/src/main/java/com/github/mehmetakiftutuncu/toolbelt/StringUtilities.java:57-67 | Joining two non-empty runs puts exactly one separator between them |
| StringUtilities.JoinLength | toolbelt/src/main/java/com/github/mehmetakiftutuncu/toolbelt/StringUtilities.java:53-71 | The joined length is the sum of element lengths plus `n - 1` separators (none for an empty collection) |
| StringUtilities.JoinLayout | toolbelt/src/main/java/com/github/mehmetakiftutuncu/toolbelt/StringUtilities.java:57-67 | The joined string is the concatenation of `n + max(n-1, 0)` pieces. Elements sit at even positions, in order, and the separator at odd positions, so it never comes after the last element |
| StringUtilities.Examples | toolbelt/src/test/java/com/github/mehmetakiftutuncu/toolbelt/StringUtilitiesUnitTest.java:12-29 | The unit tests' expectations hold for the model |
| Timer.Start | toolbelt/src/main/java/com/github/mehmetakiftutuncu/toolbelt/Timer.java:70-83 | Returns the clock reading. Afterwards the key is running since that reading, overriding any earlier start. It warns exactly when the key was already running. Every other key is unchanged |
| Timer.Stop | toolbelt/src/main/java/com/github/mehmetakiftutuncu/toolbelt/Timer.java:93-109 | For a key that is not running: returns 0, warns, and leaves the registry unchanged. For a running key: returns `now - start` as a `long` and removes the key. Every other key is unchanged |
| Timer.Time | toolbelt/src/main/java/com/github/mehmetakiftutuncu/toolbelt/Timer.java:120-128 | Completes exactly when the action returns, and then returns the action's own result. If the action leaves its key running since `t_start`, the duration is `t_end - t_start` and that key is removed from the registry the action left behind. When the action throws, the exception is passed on and `stop` never runs: the registry is the one the action left behind |
| Timer.StartThenStop | toolbelt/src/main/java/com/github/mehmetakiftutuncu/toolbelt/Timer.java:70-109 | `start` then `stop` on one key measures `t1 - t0`, which is non-negative when `0 <= t0 <= t1`, and removes the key. A key that was absent before leaves the registry exactly as it began |
| Timer.StopUnstarted | toolbelt/src/main/java/com/github/mehmetakiftutuncu/toolbelt/Timer.java:98-102 | Stopping a key that is not running returns 0 with a warning and changes nothing |
| Timer.RestartOverrides | toolbelt/src/main/java/com/github/mehmetakiftutuncu/toolbelt/Timer.java:73-79 | A second `start` on a running key warns, and the registry keeps only the later timestamp |
| Timer.TimeFreshKey | toolbelt/src/main/java/com/github/mehmetakiftutuncu/toolbelt/Timer.java:120-128 | Take `time` with a fresh key around an action that returns and leaves the registry alone. It returns the action's result, measures `t_end - t_start`, and leaves the registry as it was |
| Timer.TimeThrowLeavesKey | toolbelt/src/main/java/com/github/mehmetakiftutuncu/toolbelt/Timer.java:123-125 | When the action throws, the generated key is never stopped: it stays in the registry, running since `t_start` |
| Timer.Examples | toolbelt/src/test/java/com/github/mehmetakiftutuncu/toolbelt/TimerUnitTest.java:12-32 | The unit tests' expectations hold, with the sleeps written as clock readings: a stop at any reading at least 300 ms after the start measures at least 300 |

## Left out

- `Log.java`: it forwards to the Android platform logger with printf formatting and reflection-derived tags. Neither can be seen here. Where `Timer` logs a warning, the model reports only a `warned` flag, without the message text.
- The `AtomicReference` read-mutate-swap on the shared registry, and the lost-update race it allows under concurrent calls. The model threads a single registry through sequential calls.
- Clock and key generation: `System.currentTimeMillis()` readings and the `UUID` key used by `time` are parameters. Their freshness and monotonicity are hypotheses of the lemmas that need them.
- `hashCode` and generic erasure.
- Parameters marked `@NonNull` are taken as non-null: their model types have no `null`. What Java does with a `null` there is therefore not modelled:
  - a `null` prefix makes `new StringBuilder(prefix)` throw `NullPointerException`;
  - a `null` separator or suffix is appended as `"null"`;
  - `getOrElse` and `or` on `None` return a `null` default or alternative;
  - the Timer registry, a `HashMap`, accepts a `null` key.
- Timer.Time: the exception an action throws is modelled only as the fact that it threw; its type and message are not modelled.
- Optionals.Equals: element `equals` is taken to be structural equality (`==` on `T`). The `this == o` identity shortcut therefore agrees with the structural comparison. An argument of an unrelated class is not representable, because the argument's type is a nullable optional.
- Optionals.Optional.ToString: the element's `toString()` is a parameter `render`. Java's `String.valueOf` of arbitrary objects is not modelled.
- StringUtilities.MakeString: elements are given as their already-rendered strings. The rendering of a `null` element as `"null"`, and a collection modified concurrently with iteration, are not modelled.
- StringUtilities.MakeString: strings and collection sizes are unbounded in the model. In Java both are limited to an `int`, and a result longer than `Integer.MAX_VALUE` characters makes the `StringBuilder` throw `OutOfMemoryError`. For such inputs the length and content the contract states are not what Java produces.
