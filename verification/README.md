# NewCSharpFeatures in Dafny

A model of the routines in the NewCSharpFeatures teaching repository whose behaviour the
code states exactly, with proofs of what that code and its test assertions promise:

- `Contract.Assert` and its lazily built violation message
  (`ContractMessageInterpolatedStringHandler`). The handler is a class whose `builder` field is
  `None` for the null `_builder`. The compiler's lowering of an interpolated-string argument is
  modelled explicitly, so the laziness guarantee can be proved: when the asserted condition holds,
  no hole of the message is evaluated.
- The pattern-matching examples: `CalculateToll` with `when` guards, the local `GetCount`, and
  list patterns built from constant, relational and `or` patterns.
- The `foreach` over a `Range` enabled by `RangesExtensions.GetEnumerator`, and the values of the
  literals that use digit separators.
- `SumLength` and the null helpers `IsNullOrEmpty` and `NotNull`, together with the default
  property values of `Person`. A `string?` is an `Option<string>`, and C# `int` arithmetic wraps
  explicitly to 32 bits.
- Index-from-end (`^k`), half-open slicing, spread concatenation in collection expressions, and
  `AsString`, which joins with commas.

Modules:

- `Wrappers`: `Option` and `Result`. A thrown exception is a `Failure`.
- `Numbers`: C# `int`, its unchecked addition, and the length bound of a .NET string.
- `Text`: `Int32.ToString()`.
- `Ranges`: `System.Index` and `System.Range`.
- One module for each source file: `ArgumentValidation`, `PatternMatching`, `SmallButUseful`,
  `NullableReferenceTypes` and `CollectionsAndRanges`.

Two compiler-supplied values become plain parameters:

- The condition text that `[CallerArgumentExpression]` passes becomes an explicit `conditionText`.
- The compiler's calls to the handler become the methods `AssertInterpolated`,
  `AssertWithTrackedHole` and `ShowUserMessage`. Each builds the handler and appends each piece
  only when the handler reports itself valid.

## Model

| member | source | states |
|---|---|---|
| ArgumentValidation.ReportFailure | NewCSharpFeatures/02_Improving_Expressiveness/05_Argument_Validation.cs:27-31 | The message is "Contract violation: ", then the condition text, then ". ", then the user message, each at its exact position. |
| ArgumentValidation.ReportFailureKeepsUserMessage | NewCSharpFeatures/02_Improving_Expressiveness/05_Argument_Validation.cs:29 | For a fixed condition text, two user messages that give the same exception are equal. |
| ArgumentValidation.ContractMessageHandler.Create | NewCSharpFeatures/02_Improving_Expressiveness/05_Argument_Validation.cs:81-97 | The handler is valid exactly when the predicate is false. A true predicate leaves the builder null. A false one starts it empty, with nothing appended yet. |
| ArgumentValidation.ContractMessageHandler.AppendLiteral | NewCSharpFeatures/02_Improving_Expressiveness/05_Argument_Validation.cs:102 | The literal goes at the end of the builder's text and of the record of appended pieces, so the builder still holds the rendering of everything appended. |
| ArgumentValidation.ContractMessageHandler.AppendFormatted | NewCSharpFeatures/02_Improving_Expressiveness/05_Argument_Validation.cs:107 | The value's text goes at the end of the builder's text, and a null value appends nothing. The hole is recorded, and the builder still holds the rendering of everything appended. |
| ArgumentValidation.ContractMessageHandler.ToString | NewCSharpFeatures/02_Improving_Expressiveness/05_Argument_Validation.cs:110 | The text is the in-order concatenation of every literal and formatted value appended so far. |
| ArgumentValidation.Assert | NewCSharpFeatures/02_Improving_Expressiveness/05_Argument_Validation.cs:12-25 | Succeeds exactly when the condition holds, and then returns the condition text. Otherwise it throws the exception `ReportFailure` builds from the in-order rendering of the pieces appended to the handler. |
| ArgumentValidation.RenderAppend | NewCSharpFeatures/02_Improving_Expressiveness/05_Argument_Validation.cs:102-110 | Appending one piece appends that piece's text to the rendered message and counts it if it is a hole. |
| ArgumentValidation.AssertInterpolated | NewCSharpFeatures/02_Improving_Expressiveness/05_Argument_Validation.cs:12-25 | A passing assertion returns its condition text and evaluates no hole. A failing one evaluates every hole once, and its message is the in-order rendering of all pieces. |
| ArgumentValidation.RenderShowUserMessage | NewCSharpFeatures/02_Improving_Expressiveness/05_Argument_Validation.cs:49 | `$"x: {x}, y: {y}"` renders as "x: 42, y: -1". |
| ArgumentValidation.ShowUserMessageNumbers | NewCSharpFeatures/02_Improving_Expressiveness/05_Argument_Validation.cs:46-47 | 42 and -1 render as "42" and "-1". |
| ArgumentValidation.ShowUserMessageText | NewCSharpFeatures/02_Improving_Expressiveness/05_Argument_Validation.cs:48 | The violation prefix, the condition text and the user message make the full expected message. |
| ArgumentValidation.ShowUserMessage | NewCSharpFeatures/02_Improving_Expressiveness/05_Argument_Validation.cs:44-50 | With x = 42 and y = -1 the assertion throws "Contract violation: x != 42 && y != -1. x: 42, y: -1". |
| ArgumentValidation.AssertWithTrackedHole | NewCSharpFeatures/02_Improving_Expressiveness/05_Argument_Validation.cs:60 | A passing assertion leaves the side-effect tracker unchanged. A failing one increments the tracker once and reports its old value in the message. |
| ArgumentValidation.LazyEvaluation | NewCSharpFeatures/02_Improving_Expressiveness/05_Argument_Validation.cs:53-64 | After 1000 passing assertions the side-effect tracker is still 0. |
| PatternMatching.CalculateToll | NewCSharpFeatures/02_Improving_Expressiveness/02_Pattern_Matching.cs:88-98 | Succeeds exactly for a car or a truck. A car pays 2 below weight 1000 and 5 otherwise; a truck pays 10 or 20. Any other vehicle throws "Unknown type ..." naming its type. |
| PatternMatching.TollMonotoneInWeight | NewCSharpFeatures/02_Improving_Expressiveness/02_Pattern_Matching.cs:92-95 | For two vehicles of the same kind, the heavier one never pays less. |
| PatternMatching.GetCount | NewCSharpFeatures/02_Improving_Expressiveness/02_Pattern_Matching.cs:28-45 | The result is the number of elements, whichever branch of the type switch applies. |
| PatternMatching.EnumerableRange | NewCSharpFeatures/02_Improving_Expressiveness/02_Pattern_Matching.cs:26 | `Enumerable.Range(start, count)` has `count` elements, the k-th being `start + k`. |
| PatternMatching.TypeCheckWithTypeHierarchy | NewCSharpFeatures/02_Improving_Expressiveness/02_Pattern_Matching.cs:24-26 | An array of three and `Enumerable.Range(1, 3)` both count 3. |
| PatternMatching.Constants | NewCSharpFeatures/02_Improving_Expressiveness/02_Pattern_Matching.cs:109-111 | The list pattern `[c0, c1, ...]` holds one constant pattern per value, in order. |
| PatternMatching.ConstantListPattern | NewCSharpFeatures/02_Improving_Expressiveness/02_Pattern_Matching.cs:109-111 | A list pattern of constants matches a list exactly when the list equals those constants: same length and same elements. |
| PatternMatching.ListPatternExamples | NewCSharpFeatures/02_Improving_Expressiveness/02_Pattern_Matching.cs:107-114 | `[1,2,3]` matches `[1, 2, 3]` and `[0 or 1, <= 2, >= 3]`, but neither `[1, 2, 4]` nor `[1, 2, 3, 4]`. |
| SmallButUseful.WithoutSeparators | NewCSharpFeatures/02_Improving_Expressiveness/01_Small_But_Useful.cs:13-15 | The result holds no `_` and keeps every other character as often as the input has it. |
| SmallButUseful.WithoutSeparatorsAppend | NewCSharpFeatures/02_Improving_Expressiveness/01_Small_But_Useful.cs:13-15 | Removing separators works part by part, so the remaining characters keep their order. |
| SmallButUseful.LiteralValueDefined | NewCSharpFeatures/02_Improving_Expressiveness/01_Small_But_Useful.cs:13-15 | Digits have a value exactly when every character is a digit of the radix or `_`. |
| SmallButUseful.ParseLiteralAccepts | NewCSharpFeatures/02_Improving_Expressiveness/01_Small_But_Useful.cs:13-15 | A literal is accepted exactly when it has at least one digit, its separators are placed as C# allows, and every other character is a digit of the radix. C# allows a separator between digits or right after `0x`/`0b`, but never last, and never first in a decimal literal. |
| SmallButUseful.SeparatorsDoNotChangeValue | NewCSharpFeatures/02_Improving_Expressiveness/01_Small_But_Useful.cs:13-15 | Reading digits with their separators gives the same value as reading them without, and each reading has a value exactly when the other does. |
| SmallButUseful.SeparatorsAreInvisible | NewCSharpFeatures/02_Improving_Expressiveness/01_Small_But_Useful.cs:13-15 | An accepted literal has the same value as the literal written without separators. |
| SmallButUseful.LiteralValueAppend | NewCSharpFeatures/02_Improving_Expressiveness/01_Small_But_Useful.cs:13-15 | Reading digits left to right is compositional: the value of the first part carries into the second. |
| SmallButUseful.DecimalSeparatorExample | NewCSharpFeatures/02_Improving_Expressiveness/01_Small_But_Useful.cs:13 | `1_000_000` is 1000000, which fits an `int`. |
| SmallButUseful.HexadecimalSeparatorExample | NewCSharpFeatures/02_Improving_Expressiveness/01_Small_But_Useful.cs:14 | `0x0FFFF_0000` is 4294901760, which fits a `uint`. |
| SmallButUseful.BinarySeparatorExample | NewCSharpFeatures/02_Improving_Expressiveness/01_Small_But_Useful.cs:15 | `0b1001_1001` is 153, which fits a `byte`. |
| SmallButUseful.MisplacedSeparatorExamples | NewCSharpFeatures/02_Improving_Expressiveness/01_Small_But_Useful.cs:13-15 | `1_` and `0x_` are rejected, and so is `_1` as a decimal literal. `0x_FF` is 255 and `1__0` is 10. |
| SmallButUseful.GetEnumerator | NewCSharpFeatures/02_Improving_Expressiveness/01_Small_But_Useful.cs:100-106 | Yields `End - Start + 1` values when `Start <= End` and none otherwise. The values ascend by exactly 1 from `Start`. A value is yielded exactly when it lies between `Start` and `End`, both included. |
| SmallButUseful.MoreFunWithRanges | NewCSharpFeatures/02_Improving_Expressiveness/01_Small_But_Useful.cs:53-62 | `foreach (var n in 1..10)` produces 1 through 10. |
| SmallButUseful.AsWrittenYields | NewCSharpFeatures/02_Improving_Expressiveness/01_Small_But_Useful.cs:102-104 | Within its step budget, the loop as written yields only values that passed the guard `i <= End.Value`. |
| SmallButUseful.AsWrittenAgreesBelowMax | NewCSharpFeatures/02_Improving_Expressiveness/01_Small_But_Useful.cs:102-104 | With `End.Value` below `int.MaxValue`, the loop as written agrees with `GetEnumerator`: `End - Start + 1` values (or none), ascending by one from `Start`. |
| SmallButUseful.AsWrittenNeverStopsAtMaxValue | NewCSharpFeatures/02_Improving_Expressiveness/01_Small_But_Useful.cs:102 | With `End.Value == int.MaxValue`, the loop as written uses up any step budget, so it never ends. |
| SmallButUseful.AsWrittenWrapsToMinValue | NewCSharpFeatures/02_Improving_Expressiveness/01_Small_But_Useful.cs:102 | The range `2147483647..2147483647` yields `int.MaxValue` and then, after the wrap, `int.MinValue` and `int.MinValue + 1`. |
| Numbers.Wrap | NewCSharpFeatures/01_Improving_Design/01_NonNullable_Reference_Types.cs:46-57 | The result is an `int` congruent to the exact value modulo 2^32, and a value that is already an `int` stays unchanged. |
| Numbers.WrapAdd | NewCSharpFeatures/01_Improving_Design/01_NonNullable_Reference_Types.cs:46-57 | Truncating after each addition is the same as truncating once at the end. |
| Numbers.Add | NewCSharpFeatures/01_Improving_Design/01_NonNullable_Reference_Types.cs:46-57 | Unchecked `+=` is exact when the sum fits an `int`. Two non-negative operands give a negative result exactly when their sum overflows. |
| Numbers.AddIsWrap | NewCSharpFeatures/01_Improving_Design/01_NonNullable_Reference_Types.cs:46 | Unchecked `int` addition is the exact sum truncated to 32 bits. |
| Numbers.AddThrice | NewCSharpFeatures/01_Improving_Design/01_NonNullable_Reference_Types.cs:52-57 | Adding the same length three times with wrap-around gives `a + 3 * b`, truncated. |
| NullableReferenceTypes.Person.constructor | NewCSharpFeatures/01_Improving_Design/01_NonNullable_Reference_Types.cs:14-29 | A new person has no children, no job title, a null friends list and an empty friends-with-age dictionary. |
| NullableReferenceTypes.IsNullOrEmpty | NewCSharpFeatures/01_Improving_Design/01_NonNullable_Reference_Types.cs:37 | True exactly for null and for the empty string. |
| NullableReferenceTypes.NotNull | NewCSharpFeatures/01_Improving_Design/01_NonNullable_Reference_Types.cs:63 | Returns its argument unchanged, and does not turn a null into a value. |
| NullableReferenceTypes.SumLength | NewCSharpFeatures/01_Improving_Design/01_NonNullable_Reference_Types.cs:40-61 | The result is `len(str1) + 3 * len(str2)` truncated to 32 bits, where null or empty counts as 0. Without overflow it is exactly that sum and never negative. |
| NullableReferenceTypes.SumLengthOfNullOrEmpty | NewCSharpFeatures/01_Improving_Design/01_NonNullable_Reference_Types.cs:42-60 | Two null-or-empty strings sum to 0. |
| NullableReferenceTypes.SumLengthContributions | NewCSharpFeatures/01_Improving_Design/01_NonNullable_Reference_Types.cs:43-58 | A non-empty `str1` adds its length once; a non-empty `str2` adds its length three times. |
| CollectionsAndRanges.List.constructor | NewCSharpFeatures/02_Improving_Expressiveness/04_Collections_And_Ranges.cs:14 | A new list is empty. |
| CollectionsAndRanges.List.Add | NewCSharpFeatures/02_Improving_Expressiveness/04_Collections_And_Ranges.cs:15-16 | The element goes at the end and the earlier elements stay. |
| CollectionsAndRanges.CollectionExpression | NewCSharpFeatures/02_Improving_Expressiveness/04_Collections_And_Ranges.cs:25-29 | Holds one value per item plus every value of each spread. |
| CollectionsAndRanges.CollectionExpressionAppend | NewCSharpFeatures/02_Improving_Expressiveness/04_Collections_And_Ranges.cs:27 | A collection expression in two parts holds the values of the first part, then those of the second. |
| CollectionsAndRanges.CollectionExpressionOfItems | NewCSharpFeatures/02_Improving_Expressiveness/04_Collections_And_Ranges.cs:25 | `[x0, x1, ...]` holds exactly those values. |
| CollectionsAndRanges.SpreadThenItems | NewCSharpFeatures/02_Improving_Expressiveness/04_Collections_And_Ranges.cs:27 | `[..list, x, y, ...]` is the old list followed by the new values, in order. |
| CollectionsAndRanges.Basics | NewCSharpFeatures/02_Improving_Expressiveness/04_Collections_And_Ranges.cs:11-30 | The list ends as `[1, 2, 3, 4, 5]`, and `int[] a = []` is empty. |
| CollectionsAndRanges.ElementAt | NewCSharpFeatures/02_Improving_Expressiveness/04_Collections_And_Ranges.cs:70-83 | `a[^k]` reads position `Length - k`. An offset outside the array throws `IndexOutOfRangeException`. |
| CollectionsAndRanges.Slice | NewCSharpFeatures/02_Improving_Expressiveness/04_Collections_And_Ranges.cs:88-90 | `a[x..y]` succeeds exactly when `0 <= x <= y <= Length`, with both offsets taken from the end where marked. It then has `y - x` elements, `a[x]` through `a[y-1]`. Otherwise it throws `ArgumentOutOfRangeException`. |
| CollectionsAndRanges.IndexFromEnd | NewCSharpFeatures/02_Improving_Expressiveness/04_Collections_And_Ranges.cs:70-83 | `^k` is the k-th element from the end, and `^0` is past the last one. |
| CollectionsAndRanges.OmittedBounds | NewCSharpFeatures/02_Improving_Expressiveness/04_Collections_And_Ranges.cs:90-104 | An omitted start is 0, an omitted end is `^0`, and `0..^0` is the whole array. |
| CollectionsAndRanges.AsString | NewCSharpFeatures/02_Improving_Expressiveness/04_Collections_And_Ranges.cs:110 | The text is empty exactly for an empty array. |
| CollectionsAndRanges.AsStringAppend | NewCSharpFeatures/02_Improving_Expressiveness/04_Collections_And_Ranges.cs:110 | Joining two non-empty arrays gives the text of the first, one comma, then the text of the second. |
| CollectionsAndRanges.AsStringSeparators | NewCSharpFeatures/02_Improving_Expressiveness/04_Collections_And_Ranges.cs:110 | `n` elements are joined by `n - 1` commas, and the text neither starts nor ends with one. |
| CollectionsAndRanges.TestIndicesAndRanges | NewCSharpFeatures/02_Improving_Expressiveness/04_Collections_And_Ranges.cs:86-105 | Each slice and index of `Ids` in the test has the value its comment gives. |
| CollectionsAndRanges.TestIndicesAndRangesFirstFive | NewCSharpFeatures/02_Improving_Expressiveness/04_Collections_And_Ranges.cs:91-94 | `Ids[0..5]` and `Ids[..5]` are written as "1,2,3,4,5". |
| CollectionsAndRanges.TestIndicesAndRangesFromSecond | NewCSharpFeatures/02_Improving_Expressiveness/04_Collections_And_Ranges.cs:97 | `Ids[1..5]` is written as "2,3,4,5". |
| CollectionsAndRanges.TestIndicesAndRangesLastTwo | NewCSharpFeatures/02_Improving_Expressiveness/04_Collections_And_Ranges.cs:103-104 | `Ids[^2..]` and `Ids[^2..^0]` are written as "9,10". |
| Text.IntToString | NewCSharpFeatures/02_Improving_Expressiveness/04_Collections_And_Ranges.cs:110 | The text is non-empty. It starts with '-' exactly for negative numbers, and every other character is a digit. Its digits read back as the magnitude of `n`, with no leading zeros. |
| Text.NatToStringRoundTrip | NewCSharpFeatures/02_Improving_Expressiveness/04_Collections_And_Ranges.cs:110 | Reading the digits of a natural number back gives that number. |
| Text.IntToStringInjective | NewCSharpFeatures/02_Improving_Expressiveness/04_Collections_And_Ranges.cs:110 | Different integers render to different texts. |

## Left out

- `AwaitUsing` and `SemaphoreLease` (`01_Small_But_Useful.cs`) are not modelled. They are about async/await, a semaphore and a delay, which means concurrency and timing.
- `RawStringLiterals` is not modelled. Its processors are empty methods.
- All test output through `ITestOutputHelper.WriteLine` is left out. So are the `ToString("X")` and `ToString("b8")` formats. The model states the values, not the printed text.
- `CollectionExpressionsDeepDive` and `CheckIEnumerable` are not modelled. They concern the compiler's choice of target type and allocation, not observable values.
- `03_Null_Checking.cs`, `02_Records.cs`, `03_Immutability.cs`, `OldPerson` and the `FullFrameworkExecutable` program are not modelled. They are syntax and compile-time rules, not algorithms, and record value equality is what a Dafny datatype already has.
- PatternMatching.GetCount: the runtime type switch (`int[]`, `ICollection<int>`, LINQ `Count()`) is not modelled. The input is a plain sequence, and every branch gives its number of elements.
- The attributes `DoesNotReturnIf`, `CallerArgumentExpression` and `InterpolatedStringHandlerArgument` are not modelled. Their effect is explicit: a `Result` for the throw, a parameter for the condition text, and the lowering methods for the handler.
- ArgumentValidation.ContractMessageHandler.AppendFormatted: the generic `T` is replaced by the text of `t?.ToString()`. Formatting of arbitrary values is left out.
- ArgumentValidation.ContractMessageHandler.AppendLiteral: the precondition that a builder exists replaces the `NullReferenceException` that `_builder!` would throw. The same holds for `AppendFormatted` and `ToString`. The compiler never calls them on an invalid handler. The precondition is `Valid()`: a builder exists and holds the rendering of the recorded pieces, which `Create` establishes and every append keeps.
- `ContractException` is only its message. The rest of `System.Exception` is left out.
- The expressions in interpolation holes are given as their resulting text, with a counter for the holes that run. Arbitrary side effects are modelled only through `sideEffectTracker` in `AssertWithTrackedHole`.
- PatternMatching.CalculateToll: a null vehicle is not modelled. In C# the discard arm would call `GetType()` on null and throw `NullReferenceException`. The vehicle's type name is given as a string.
- SmallButUseful.GetEnumerator: the `yield return` iterator is modelled as the complete sequence of values it yields, not as a lazy enumerator.
- SmallButUseful.GetEnumerator uses an unbounded counter, the corrected behaviour described under Findings. The as-written 32-bit loop is `AsWrittenYields`, which is bounded by a step budget because the original never terminates.
- The literal lemmas give the values of the digit strings that follow any `0x` or `0b` prefix. The prefix itself, type suffixes such as `u` or `L`, and the compiler's rejection of literals too large for their type are not modelled. Each example states its type bound next to its value.
- `System.Index` rejects a negative value with `ArgumentOutOfRangeException`, for example `Ids[-1..]` through the implicit conversion from `int`. The model's `IndexValue` type admits only values from 0 to `int.MaxValue`, so that exception is not modelled.
- Text.IntToString: `Int32.ToString()` uses the current culture, whose negative sign may differ from '-'. The model uses ASCII digits and '-'.
- PatternMatching.EnumerableRange: `Enumerable.Range` throws `ArgumentOutOfRangeException` when `count` is negative or `start + count - 1` exceeds `int.MaxValue`. The model takes a natural `count` and an unbounded `start`, so that exception is not modelled.

## Findings

| source | as written | input that shows it | evidently intended | confidence | as-written member | corrected member |
|---|---|---|---|---|---|---|
| NewCSharpFeatures/02_Improving_Expressiveness/01_Small_But_Useful.cs:102 | `for (int i = range.Start.Value; i <= range.End.Value; i++)` uses an `int` counter. When `End.Value` is `int.MaxValue`, `i <= End.Value` always holds and `i++` wraps to `int.MinValue`, so the loop never ends. | `foreach (var n in 2147483647..2147483647)` | Yield `Start.Value` through `End.Value` inclusive and then stop: one value for this range. | not executed | SmallButUseful.AsWrittenNeverStopsAtMaxValue | SmallButUseful.GetEnumerator |
