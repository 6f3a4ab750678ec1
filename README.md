# Light.GuardClauses: the assertion layer in Dafny

Light.GuardClauses is a C# library of guard clauses: extension methods such as
`parameter.MustBeLongerThan(5)` check an argument and either return it or raise
an exception. Each check comes in two overloads.

- The **default** overload takes an optional `parameterName` and `message`. It
  returns the argument unchanged on success. On failure it raises an exception
  of a fixed kind that carries the name and either the caller's message or a
  templated one.
- The **custom** overload takes an exception factory. It calls the factory with
  exactly the checked arguments on failure, and only then.

This project models these checks as Dafny functions and proves what they promise:

- the string length checks (longer than, longer than or equal to, shorter than, length in a range);
- the new-line and trimmed checks;
- substring and collection containment;
- `MustNotBeOneOf`;
- the message of the exception factory `Throw.MustBeGreaterThan`;
- the `Range<T>` interval type with `MustNotBeIn`, `MustNotBeGreaterThanOrEqualTo` and `MustBeGreaterThan`.

Conventions:

- C# `null` is `Option.None`.
- A string is a `seq<char>`. A Dafny `char` is a Unicode scalar value, so a `seq<char>` stands for the .NET string with the same characters only when every character lies in the Basic Multilingual Plane; then each one is a single UTF-16 code unit and the lengths agree. Spans and collections are `seq<T>`.
- A default overload returns `Checked<T>`: `Ok(value)` or `Fail(Fault(kind, paramName, message))`.
- A custom overload returns `Guarded<T, A>`: `Passed(value)` or `Custom(args)`, where `args` is the tuple the factory receives.
- `Fault.message` is `Some(text)` when the text is known: the caller's message or a modelled template.
- `Fault.message` is `None` when the caller gave no message and the default text comes from a `Throw` helper that is not part of this model.
- A `Range` value may have `to < from`; only the results of `NewRange` and of the fluent builder correspond to C# `Range<T>` values. Contracts over all ranges (`MustHaveLengthIn`, `MustNotBeIn` and their lemmas) also cover such unconstructible ranges.
- Comparable values and range bounds are `int`. Values in messages are rendered by `ShowInt`, which is `int.ToString()` for a culture whose negative sign is "-".

Modules:

| module | file | models |
|---|---|---|
| `Guards` | guards.dfy | `Option`, exception kinds, `Fault`, the two result types |
| `Formatting` | formatting.dfy | `ShowInt`; it is injective and self-delimiting, so a templated message determines its values |
| `Ranges` | ranges.dfy | `Range<T>`: membership, construction, the fluent builder, `Range.For` |
| `Throw` | throw.dfy | `Throw.MustBeGreaterThan` |
| `ComparableAssertions` | comparable_assertions.dfy | `MustBeGreaterThan`, `MustNotBeGreaterThanOrEqualTo`, `MustNotBeIn` |
| `StringAssertions` | string_assertions.dfy | `Check.StringAssertions.cs` and the copy of `MustBeTrimmed` in `Check.MustBeTrimmed.cs` |
| `ShorterThan` | must_be_shorter_than.dfy | `Check.MustBeShorterThan.cs` |
| `MustNotContain` | must_not_contain.dfy | `Check.MustNotContain.cs` |
| `MustNotBeOneOf` | must_not_be_one_of.dfy | `Check.MustNotBeOneOf.cs` |

## Model

| member | source | states |
|---|---|---|
| Formatting.ShowInt | Code/Light.GuardClauses/ExceptionFactory/Throw.MustBeGreaterThan.cs:25 | An interpolated integer is non-empty text of digits and '-', and starts with '-' exactly when the value is negative |
| Formatting.ParseShowNat | Code/Light.GuardClauses/ExceptionFactory/Throw.MustBeGreaterThan.cs:25 | Parsing the decimal digits of a natural number gives it back |
| Formatting.ShowIntInjective | Code/Light.GuardClauses/ExceptionFactory/Throw.MustBeGreaterThan.cs:25 | Different integers are rendered differently |
| Formatting.ShowIntPrefixUnique | Code/Light.GuardClauses/ExceptionFactory/Throw.MustBeGreaterThan.cs:25 | A rendered integer followed by text that does not continue a numeral splits in one way only |
| Formatting.TwoValueMessageDetermines | Code/Light.GuardClauses/ExceptionFactory/Throw.MustBeGreaterThan.cs:25 | A message of the form prefix, value, separator, value, "." determines both values |
| Guards.NullFault | Code/Light.GuardClauses/Check.StringAssertions.cs:26 | `MustNotBeNull(parameterName, message)` raises an ArgumentNullException carrying exactly the name and message it is handed |
| Throw.NameOrTheValue | Code/Light.GuardClauses/ExceptionFactory/Throw.MustBeGreaterThan.cs:25 | The message subject is the parameter name, or "The value" when the name is null |
| Throw.GreaterThanMessage | Code/Light.GuardClauses/ExceptionFactory/Throw.MustBeGreaterThan.cs:25 | The default text starts with the subject (name or "The value") and ends with the rendered value and "." |
| Throw.GreaterThanMessageDetermines | Code/Light.GuardClauses/ExceptionFactory/Throw.MustBeGreaterThan.cs:25 | For one name, the templated message determines the boundary and the value |
| Throw.MustBeGreaterThan | Code/Light.GuardClauses/ExceptionFactory/Throw.MustBeGreaterThan.cs:14-26 | Always an ArgumentOutOfRangeException named `parameterName`; the caller's message verbatim, else "{name} must be greater than {boundary}, but it actually is {parameter}." |
| Throw.NamedGreaterThanExample | Code/Light.GuardClauses/ExceptionFactory/Throw.MustBeGreaterThan.cs:22-25 | With a name and no message, the template reads "first must be greater than 2, but it actually is 1." |
| Throw.AnonymousGreaterThanExample | Code/Light.GuardClauses/ExceptionFactory/Throw.MustBeGreaterThan.cs:25 | With neither a name nor a message, the subject is "The value" |
| Ranges.WithinRangeIsClosedInterval | Code/Light.GuardClauses.Tests/ComparableAssertions/RangeTests.cs:14-44 | Membership is `>=`/`>` at the lower bound and `<=`/`<` at the upper bound; over the integers this is one closed interval |
| Ranges.RangeNonEmpty | Code/Light.GuardClauses.Tests/ComparableAssertions/RangeTests.cs:14-44 | A range holds a value exactly when its lowest admitted value is not above its highest |
| Ranges.InclusiveBoundsWiden | Code/Light.GuardClauses.Tests/ComparableAssertions/RangeTests.cs:30-44 | Making both bounds inclusive loses no member and adds nothing but the two endpoints; when `from <= to` both endpoints are members of the widened range |
| Ranges.IsValueWithinRange | Code/Light.GuardClauses.Tests/ComparableAssertions/RangeTests.cs:14-44 | A member lies between `from` and `to`; every value strictly between them is a member; at an endpoint of a non-degenerate range membership is that bound's flag |
| Ranges.ConstructionMessage | Code/Light.GuardClauses.Tests/ComparableAssertions/RangeTests.cs:55 | The construction message starts with "to must not be less than " and ends with the rendered `to` and "." |
| Ranges.ConstructionMessageDetermines | Code/Light.GuardClauses.Tests/ComparableAssertions/RangeTests.cs:46-56 | The construction message determines both bounds |
| Ranges.NewRange | Code/Light.GuardClauses.Tests/ComparableAssertions/RangeTests.cs:46-56 | Construction succeeds exactly when `from <= to` and then keeps the four fields; otherwise an ArgumentOutOfRangeException named "to" with "to must not be less than {from}, but it actually is {to}." |
| Ranges.FromInclusive | Code/Light.GuardClauses.Tests/ComparableAssertions/RangeTests.cs:52 | Starts a range at `from` with the lower bound included |
| Ranges.FromExclusive | Code/Light.GuardClauses.Tests/ComparableAssertions/MustNotBeInTests.cs:33 | Starts a range at `from` with the lower bound excluded |
| Ranges.ToInclusive | Code/Light.GuardClauses.Tests/ComparableAssertions/MustNotBeInTests.cs:33 | Completes the range with `to` included; fails as the constructor does when `to < from`; `to` is then a member unless the range is the empty `(to, to]` |
| Ranges.ToExclusive | Code/Light.GuardClauses.Tests/ComparableAssertions/RangeTests.cs:46-56 | Completes the range with `to` excluded; fails as the constructor does when `to < from`; `to` is never a member |
| Ranges.BuilderMatchesConstructor | Code/Light.GuardClauses.Tests/ComparableAssertions/RangeTests.cs:46-56 | `FromInclusive`/`FromExclusive` followed by `ToInclusive`/`ToExclusive` equals the constructor with the matching flags, in all four combinations |
| Ranges.For | Code/Light.GuardClauses.Tests/ComparableAssertions/RangeTests.cs:58-128 | `Range.For(items)` is the valid range `[0, count)`, and it holds exactly the valid indices |
| Ranges.MembershipExamples | Code/Light.GuardClauses.Tests/ComparableAssertions/RangeTests.cs:14-44 | The in-range and out-of-range cases of the tests |
| Ranges.ConstructionExamples | Code/Light.GuardClauses.Tests/ComparableAssertions/RangeTests.cs:46-56 | The construction failures of the tests, with the exact message for `[1, 0)` |
| ComparableAssertions.MustBeGreaterThan | Code/Light.GuardClauses.Tests/MustBeGreaterThanTests.cs:11-37 | Passes exactly when `parameter > boundary` and returns the value; otherwise the exception of `Throw.MustBeGreaterThan` |
| ComparableAssertions.NotGreaterThanOrEqualToMessage | Code/Light.GuardClauses.Tests/ComparableAssertions/MustNotBeGreaterThanOrEqualToTests.cs:18 | The default text starts with the subject and ends with the rendered value and "." |
| ComparableAssertions.NotGreaterThanOrEqualToMessageDetermines | Code/Light.GuardClauses.Tests/ComparableAssertions/MustNotBeGreaterThanOrEqualToTests.cs:9-19 | For one name, the message determines the boundary and the value |
| ComparableAssertions.MustNotBeGreaterThanOrEqualTo | Code/Light.GuardClauses.Tests/ComparableAssertions/MustNotBeGreaterThanOrEqualToTests.cs:9-35 | Passes exactly when `parameter < boundary` and returns the value; otherwise an ArgumentOutOfRangeException with the caller's message or "{name} must not be greater than or equal to {boundary}, but it actually is {value}." |
| ComparableAssertions.MustNotBeGreaterThanOrEqualToCustom | Code/Light.GuardClauses.Tests/ComparableAssertions/MustNotBeGreaterThanOrEqualToTests.cs:26-31 | The factory gets `(parameter, boundary)` exactly when `parameter >= boundary` |
| ComparableAssertions.BoundTextInjective | Code/Light.GuardClauses.Tests/ComparableAssertions/MustNotBeInTests.cs:21-36 | "(inclusive)" and "(exclusive)" tell the two flags apart |
| ComparableAssertions.RangeDescription | Code/Light.GuardClauses.Tests/ComparableAssertions/MustNotBeInTests.cs:21 | The "{from} ({flag}) and {to} ({flag})" part of the MustNotBeIn message: it starts with the rendered lower bound and ends with the upper flag's text |
| ComparableAssertions.NotInRangeMessage | Code/Light.GuardClauses.Tests/ComparableAssertions/MustNotBeInTests.cs:21-36 | The default text starts with the subject and ends with the rendered value and "." |
| ComparableAssertions.ValueTailDetermines | Code/Light.GuardClauses.Tests/ComparableAssertions/MustNotBeInTests.cs:21-36 | The message text after the upper bound determines the upper flag and the value |
| ComparableAssertions.UpperTailDetermines | Code/Light.GuardClauses.Tests/ComparableAssertions/MustNotBeInTests.cs:21-36 | The message text from the lower flag onward determines the lower flag, the upper bound, the upper flag and the value |
| ComparableAssertions.NotInRangeMessageDetermines | Code/Light.GuardClauses.Tests/ComparableAssertions/MustNotBeInTests.cs:16-37 | For one name, the message "{name} must not be between {from} ({flag}) and {to} ({flag}), but it actually is {value}." determines the range and the value |
| ComparableAssertions.MustNotBeIn | Code/Light.GuardClauses.Tests/ComparableAssertions/MustNotBeInTests.cs:9-51 | Passes exactly when the value is outside the range and returns it; otherwise an ArgumentOutOfRangeException with the caller's message or the range message |
| ComparableAssertions.MustNotBeInCustom | Code/Light.GuardClauses.Tests/ComparableAssertions/MustNotBeInTests.cs:53-60 | The factory gets `(parameter, range)` exactly when the value is in the range |
| ComparableAssertions.NotGreaterOrEqualIsConverseOfGreater | Code/Light.GuardClauses.Tests/ComparableAssertions/MustNotBeGreaterThanOrEqualToTests.cs:9-24 | `x.MustNotBeGreaterThanOrEqualTo(b)` passes exactly when `b.MustBeGreaterThan(x)` passes |
| ComparableAssertions.ComparablePathsAgree | Code/Light.GuardClauses.Tests/ComparableAssertions/MustNotBeInTests.cs:53-60 | The default and custom overloads decide alike |
| ComparableAssertions.ComparableChecksIdempotent | Code/Light.GuardClauses.Tests/ComparableAssertions/MustNotBeInTests.cs:45-51 | A value that passed passes again with the same result |
| ComparableAssertions.MustNotBeInInclusiveExclusiveExample | Code/Light.GuardClauses.Tests/ComparableAssertions/MustNotBeInTests.cs:9-22 | `1` in `[1, 5)` fails with "value must not be between 1 (inclusive) and 5 (exclusive), but it actually is 1." |
| ComparableAssertions.MustNotBeInExclusiveInclusiveExample | Code/Light.GuardClauses.Tests/ComparableAssertions/MustNotBeInTests.cs:24-37 | `5` in `(1, 5]` fails with the "(exclusive) … (inclusive)" message |
| ComparableAssertions.MustNotBeInOutsideExamples | Code/Light.GuardClauses.Tests/ComparableAssertions/MustNotBeInTests.cs:39-55 | The out-of-range values of the tests are returned, and the factory gets `(12, [10, 15])` |
| ComparableAssertions.MustNotBeGreaterThanOrEqualToExamples | Code/Light.GuardClauses.Tests/ComparableAssertions/MustNotBeGreaterThanOrEqualToTests.cs:9-35 | The failing and passing cases of the tests, the factory arguments `(20, 10)`, and a custom message kept verbatim |
| StringAssertions.IsWhiteSpace | Code/Light.GuardClauses/Check.StringAssertions.cs:254 | `char.IsWhiteSpace` from the Unicode table: among ASCII exactly space and U+0009 to U+000D; nothing above U+3000; not the zero-width space U+200B or U+FEFF |
| StringAssertions.MustBeLongerThan | Code/Light.GuardClauses/Check.StringAssertions.cs:24-29 | Returns the string exactly when it is non-null and the length is above `length`; null is an ArgumentNullException, otherwise a StringLengthException |
| StringAssertions.MustBeLongerThanCustom | Code/Light.GuardClauses/Check.StringAssertions.cs:40-45 | The factory gets `(parameter, length)` exactly when the string is null or the length is at most `length` |
| StringAssertions.MustBeLongerThanOrEqualTo | Code/Light.GuardClauses/Check.StringAssertions.cs:58-63 | Returns the string exactly when it is non-null and the length is at least `length`; null is an ArgumentNullException, otherwise a StringLengthException |
| StringAssertions.MustBeLongerThanOrEqualToCustom | Code/Light.GuardClauses/Check.StringAssertions.cs:74-79 | The factory gets `(parameter, length)` exactly when the string is null or the length is below `length` |
| StringAssertions.MustHaveLengthIn | Code/Light.GuardClauses/Check.StringAssertions.cs:92-97 | Returns the string exactly when it is non-null and its length is in the range; null is an ArgumentNullException, otherwise a StringLengthException |
| StringAssertions.MustHaveLengthInCustom | Code/Light.GuardClauses/Check.StringAssertions.cs:108-113 | The factory gets `(parameter, range)` when the string is null or its length is outside the range |
| StringAssertions.StrictAndNonStrictLength | Code/Light.GuardClauses/Check.StringAssertions.cs:24-63 | "Longer than `l`" is "longer than or equal to `l + 1`"; the two bounds differ only at length `l` |
| StringAssertions.LongerThanAsLengthRange | Code/Light.GuardClauses/Check.StringAssertions.cs:24-97 | The two lower length bounds are the length ranges from `length` to the larger of `length` and the string's length, a range the constructor accepts, with the lower bound exclusive or inclusive |
| StringAssertions.IsNewLine | Code/Light.GuardClauses/Check.StringAssertions.cs:121 | Null is not a new line; a new line has one or two characters, all white space, ending in '\n' |
| StringAssertions.MustBeNewLine | Code/Light.GuardClauses/Check.StringAssertions.cs:121-138 | Returns the string exactly when it is "\n" or "\r\n"; null is an ArgumentNullException, otherwise a StringException |
| StringAssertions.MustBeNewLineCustom | Code/Light.GuardClauses/Check.StringAssertions.cs:148-153 | The factory gets the string when it is not a new line; null is not a new line, so it reaches the factory |
| StringAssertions.SpanIsTrimmedAtStart | Code/Light.GuardClauses/Check.StringAssertions.cs:253-254 | Trimmed at the start exactly when no non-empty prefix is all white space |
| StringAssertions.SpanIsTrimmedAtEnd | Code/Light.GuardClauses/Check.StringAssertions.cs:320-321 | Trimmed at the end exactly when no non-empty suffix is all white space |
| StringAssertions.SpanIsTrimmed | Code/Light.GuardClauses/Check.StringAssertions.cs:182-185 | A span is trimmed exactly when it is trimmed at both ends; the empty span is trimmed |
| StringAssertions.IsTrimmed | Code/Light.GuardClauses/Check.StringAssertions.cs:172-173 | Null answers `regardNullAsTrimmed`; a string answers the span predicate |
| StringAssertions.IsTrimmedAtStart | Code/Light.GuardClauses/Check.StringAssertions.cs:240-241 | Null answers `regardNullAsTrimmed`; a string answers whether it starts with a non-white-space character or is empty |
| StringAssertions.IsTrimmedAtEnd | Code/Light.GuardClauses/Check.StringAssertions.cs:307-308 | Null answers `regardNullAsTrimmed`; a string answers whether it ends with a non-white-space character or is empty |
| StringAssertions.TrimmedIsBothEnds | Code/Light.GuardClauses/Check.StringAssertions.cs:172-321 | For a non-null string, trimmed is trimmed at start and at end; for null all three answer `regardNullAsTrimmed` |
| StringAssertions.TrimStart | Code/Light.GuardClauses/Check.StringAssertions.cs:253-254 | Reference `string.TrimStart()`: drops exactly the leading white space and leaves a string trimmed at its start |
| StringAssertions.TrimEnd | Code/Light.GuardClauses/Check.StringAssertions.cs:320-321 | Reference `string.TrimEnd()`: drops exactly the trailing white space and leaves a string trimmed at its end |
| StringAssertions.Trim | Code/Light.GuardClauses/Check.StringAssertions.cs:182-185 | Reference `string.Trim()`: its result is always trimmed |
| StringAssertions.TrimmedAtStartIffTrimStartKeeps | Code/Light.GuardClauses/Check.StringAssertions.cs:253-254 | Trimmed at the start exactly when `TrimStart` is the identity |
| StringAssertions.TrimmedAtEndIffTrimEndKeeps | Code/Light.GuardClauses/Check.StringAssertions.cs:320-321 | Trimmed at the end exactly when `TrimEnd` is the identity |
| StringAssertions.TrimmedIffTrimKeeps | Code/Light.GuardClauses/Check.StringAssertions.cs:182-185 | Trimmed exactly when `Trim` is the identity; `Trim` is idempotent |
| StringAssertions.MustBeTrimmed | Code/Light.GuardClauses/Check.MustBeTrimmed.cs:26-38 | Returns the string exactly when it is non-null and trimmed; null is an ArgumentNullException, otherwise a StringException; "" passes |
| StringAssertions.MustBeTrimmedCustom | Code/Light.GuardClauses/Check.MustBeTrimmed.cs:49-60 | The factory gets the string when it is null or not trimmed |
| StringAssertions.MustBeTrimmedAtStart | Code/Light.GuardClauses/Check.StringAssertions.cs:270-275 | Returns the string exactly when it is non-null and trimmed at the start; null is an ArgumentNullException, otherwise a StringException |
| StringAssertions.MustBeTrimmedAtStartCustom | Code/Light.GuardClauses/Check.StringAssertions.cs:286-291 | The factory gets the string when it is null or starts with white space |
| StringAssertions.MustBeTrimmedAtEnd | Code/Light.GuardClauses/Check.StringAssertions.cs:337-342 | Returns the string exactly when it is non-null and trimmed at the end; null is an ArgumentNullException, otherwise a StringException |
| StringAssertions.MustBeTrimmedAtEndCustom | Code/Light.GuardClauses/Check.StringAssertions.cs:353-358 | The factory gets the string when it is null or ends with white space |
| StringAssertions.MustBeTrimmedMeansTrimKeeps | Code/Light.GuardClauses/Check.StringAssertions.cs:202-342 | Each `MustBeTrimmed*` check passes exactly the strings that the matching `Trim*` leaves unchanged |
| StringAssertions.NewLineIsNotTrimmed | Code/Light.GuardClauses/Check.StringAssertions.cs:121-185 | A new line is trimmed at neither end, so it passes `MustBeNewLine` and fails `MustBeTrimmed` |
| StringAssertions.StringPathsAgree | Code/Light.GuardClauses/Check.StringAssertions.cs:24-358 | The default and custom overloads of every string check decide alike |
| StringAssertions.StringChecksIdempotent | Code/Light.GuardClauses/Check.StringAssertions.cs:24-342 | A string that passed any of the seven default checks (the three length checks, MustBeNewLine and the three trimmed checks) passes it again with the same result |
| ShorterThan.MustBeShorterThan | Code/Light.GuardClauses/Check.MustBeShorterThan.cs:22-35 | Returns the string exactly when it is non-null and the length is below `length`; null is an ArgumentNullException, otherwise a StringLengthException |
| ShorterThan.MustBeShorterThanCustom | Code/Light.GuardClauses/Check.MustBeShorterThan.cs:46-58 | The factory gets `(parameter, length)` exactly when the string is null or the length is at least `length` |
| ShorterThan.SpanMustBeShorterThan | Code/Light.GuardClauses/Check.MustBeShorterThan.cs:69-82 | For `Span<T>`, and alike for `ReadOnlySpan<T>` at lines 115-128: returns the span exactly when its length is below `length`, otherwise an InvalidCollectionCountException; there is no null case |
| ShorterThan.SpanMustBeShorterThanCustom | Code/Light.GuardClauses/Check.MustBeShorterThan.cs:92-104 | For `Span<T>`, and alike for `ReadOnlySpan<T>` at lines 138-150: the span factory gets `(span, length)` exactly when its length is at least `length` |
| ShorterThan.NonPositiveLengthRejectsAll | Code/Light.GuardClauses/Check.MustBeShorterThan.cs:22-104 | A bound `<= 0` rejects every string and every span, on both paths |
| ShorterThan.ShorterThanIdempotent | Code/Light.GuardClauses/Check.MustBeShorterThan.cs:22-82 | An argument that passed passes again with the same result |
| ShorterThan.ShorterThanComplementsLongerOrEqual | Code/Light.GuardClauses/Check.MustBeShorterThan.cs:29 | For a non-null string, "shorter than `l`" is the exact complement of "longer than or equal to `l`" |
| ShorterThan.LengthInIsTwoBounds | Code/Light.GuardClauses/Check.StringAssertions.cs:92-97 | `MustHaveLengthIn` is a lower length check and an upper length check, each strict or not by the range's flags |
| ShorterThan.StringIsSpan | Code/Light.GuardClauses/Check.MustBeShorterThan.cs:22-82 | A string passes the string overload exactly when it passes the span overload |
| MustNotContain.CollectionMustNotContain | Code/Light.GuardClauses/Check.MustNotContain.cs:25-48 | Returns the collection exactly when it is non-null and no element equals the item; null is an ArgumentNullException, otherwise an ExistingItemException |
| MustNotContain.CollectionMustNotContainCustom | Code/Light.GuardClauses/Check.MustNotContain.cs:59-81 | The factory gets `(parameter, item)` exactly when the collection is null or holds the item |
| MustNotContain.CollectionCheckSplits | Code/Light.GuardClauses/Check.MustNotContain.cs:25-48 | A concatenation passes exactly when both parts pass |
| MustNotContain.Contains | Code/Light.GuardClauses/Check.MustNotContain.cs:101 | `string.Contains` holds exactly when the value occurs at some index; a value longer than the string never occurs |
| MustNotContain.IndexOfFrom | Code/Light.GuardClauses/Check.MustNotContain.cs:158-162 | The first ordinal occurrence at or after `start`, or -1 when there is none |
| MustNotContain.OrdinalIndexOf | Code/Light.GuardClauses/Check.MustNotContain.cs:158-162 | The index is non-negative exactly when the string contains the value, and then it is the first occurrence |
| MustNotContain.ContainsExtends | Code/Light.GuardClauses/Check.MustNotContain.cs:101 | An occurrence survives text added before or after the string |
| MustNotContain.ContainsBasics | Code/Light.GuardClauses/Check.MustNotContain.cs:101 | Every string contains "" and itself |
| MustNotContain.StringMustNotContain | Code/Light.GuardClauses/Check.MustNotContain.cs:94-107 | A null parameter fails first, under its own name; then a null value, under the name "value"; an occurrence is a SubstringException; otherwise the string is returned |
| MustNotContain.StringMustNotContainCustom | Code/Light.GuardClauses/Check.MustNotContain.cs:122-135 | The factory gets `(parameter, value)` exactly when either is null or the value occurs |
| MustNotContain.StringMustNotContainWith | Code/Light.GuardClauses/Check.MustNotContain.cs:137-168 | The same null order; then an ArgumentException named "comparisonType" for an undefined `comparisonType`; otherwise a SubstringException exactly when `IndexOfWith` finds the value: the ordinal search for `Ordinal`, the parameter `indexOf` for the other five comparisons |
| MustNotContain.StringMustNotContainWithCustom | Code/Light.GuardClauses/Check.MustNotContain.cs:171-199 | The factory gets `(parameter, value, comparisonType)` when either string is null, whatever `comparisonType` is, or when `IndexOf >= 0`; for two strings and an undefined `comparisonType`, `IndexOf` raises an ArgumentException and the factory is not called |
| MustNotContain.UndefinedComparisonRaises | Code/Light.GuardClauses/Check.MustNotContain.cs:147-199 | An undefined `comparisonType` raises the ArgumentException in both overloads for any two strings; the null tests still come first |
| MustNotContain.OrdinalComparisonAgrees | Code/Light.GuardClauses/Check.MustNotContain.cs:94-168 | With `StringComparison.Ordinal` the `StringComparison` overloads decide exactly as the plain ones, whatever the parameter `indexOf` answers |
| MustNotContain.OrdinalComparisonExample | Code/Light.GuardClauses/Check.MustNotContain.cs:158-162 | With `Ordinal`, "b" in "abc" raises the SubstringException and "d" passes, whatever `indexOf` answers |
| MustNotContain.IndexOfWith | Code/Light.GuardClauses/Check.MustNotContain.cs:158-160 | `string.IndexOf(value, comparisonType)` for a defined comparison: for `Ordinal`, non-negative exactly when the value occurs, and then the first occurrence; otherwise the parameter `indexOf` |
| MustNotContain.UndefinedComparisonFault | Code/Light.GuardClauses/Check.MustNotContain.cs:147 | The ArgumentException named "comparisonType" that `IndexOf` raises for a `StringComparison` value outside the six defined ones (the datatype's `Undefined` case) |
| MustNotContain.SubstringEdgeCases | Code/Light.GuardClauses/Check.MustNotContain.cs:101 | "" and the string itself always fail; a longer value always passes |
| MustNotContain.SubstringFailureExtends | Code/Light.GuardClauses/Check.MustNotContain.cs:101 | A string that fails keeps failing when text is added around it |
| MustNotContain.ContainmentPathsAgree | Code/Light.GuardClauses/Check.MustNotContain.cs:25-135 | The default and custom overloads decide alike |
| MustNotBeOneOf.MustNotBeOneOf | Code/Light.GuardClauses/Check.MustNotBeOneOf.cs:25-40 | Null items is an ArgumentNullException named "items", checked first; a member is a ValueIsOneOfException; otherwise the value is returned |
| MustNotBeOneOf.MustNotBeOneOfCustom | Code/Light.GuardClauses/Check.MustNotBeOneOf.cs:51-64 | The factory gets `(parameter, items)` exactly when items is null or holds the value, and is not called otherwise |
| MustNotBeOneOf.OneOfMirrorsContain | Code/Light.GuardClauses/Check.MustNotBeOneOf.cs:33 | `x.MustNotBeOneOf(items)` passes exactly when `items.MustNotContain(x)` passes |
| MustNotBeOneOf.OneOfPathsAgree | Code/Light.GuardClauses/Check.MustNotBeOneOf.cs:25-64 | The two overloads decide alike, and a value that passed passes again |
| MustNotBeOneOf.OneOfEdgeCases | Code/Light.GuardClauses/Check.MustNotBeOneOf.cs:33-38 | An empty list forbids nothing; a list holding the value at any position forbids it |
| MustNotBeOneOf.IsOneOf | Code/Light.GuardClauses/Check.MustNotBeOneOf.cs:33 | Holds exactly when some item equals the value; never for an empty list |

## Left out

- Exceptions are values, not thrown. What a custom factory builds and returns is not modelled; its arguments are.
- Default message texts of the `Throw` helpers that are not part of this model are not modelled. This covers `Throw.StringNotLongerThan`, `Throw.NotTrimmed`, `Throw.ExistingItem`, `Throw.ValueIsOneOf` and the others. Such faults carry `message == None` when the caller gave none.
- The source of `Range<T>`, `MustNotBeIn`, `MustNotBeGreaterThanOrEqualTo` and `Check.MustBeGreaterThan` is not part of this model. Their tests check the exception type and that the message contains a text; the rest of their contracts is inferred, not tested:
  - the parameter name "to" of the construction failure (`Ranges.NewRange`), by analogy with the C# parameter name;
  - the parameter name `parameterName` of `ComparableAssertions.MustNotBeIn` and `ComparableAssertions.MustNotBeGreaterThanOrEqualTo`, as in `Throw.MustBeGreaterThan`;
  - the message being exactly the template (the tests only require it to contain the template) for `Ranges.NewRange`, `ComparableAssertions.MustNotBeIn` and `ComparableAssertions.MustNotBeGreaterThanOrEqualTo`;
  - the fallback subject "The value" for an unnamed `MustNotBeIn` or `MustNotBeGreaterThanOrEqualTo`, by analogy with `Throw.MustBeGreaterThan`;
  - for `ComparableAssertions.MustBeGreaterThan`: that it returns the value when it passes, and that its fault is exactly `Throw.MustBeGreaterThan(parameter, boundary, parameterName, message)`, so it carries `parameterName`.
- `MustNotBeNull` is not part of this model. `Guards.NullFault` takes it to raise an ArgumentNullException with the name and message it is handed.
- The range in `MustNotBeInTests.cs:55` is taken to use the default flags (inclusive, inclusive).
- Generic comparables are `int` only. `char`, `short` and `decimal` instances of the tests are not modelled, nor `ToString` of other types.
- The test at `MustBeGreaterThanTests.cs:24` expects "you specified", which contradicts the template in the `Throw` file. The model follows the `Throw` file.
- `char.IsWhiteSpace` is written out from the .NET table. The `IsWhiteSpace()` extension is not part of this model and is taken to be that method.
- Strings that contain a UTF-16 surrogate are not covered: that is every string with a character outside the Basic Multilingual Plane, and every string with an unpaired surrogate. A Dafny `char` cannot be a surrogate. Writing a supplementary character as one Dafny `char` gives it length 1 where .NET counts 2, so the length checks would decide differently.
- Formatting.ShowInt: the messages are modelled for a culture whose negative sign is "-". The source interpolates values with the current culture, and some cultures use another sign (U+2212, for example). This affects the texts of `Throw.MustBeGreaterThan`, `Ranges.NewRange`, `ComparableAssertions.MustNotBeGreaterThanOrEqualTo` and `ComparableAssertions.MustNotBeIn` for negative values.
- Culture-sensitive and case-insensitive substring search (the five `StringComparison` values other than `Ordinal`) is a parameter `indexOf`; nothing is promised about it. `Ordinal` uses the modelled ordinal search `OrdinalIndexOf`. The .NET message of the ArgumentException for an undefined `comparisonType` is not modelled.
- Collections with a custom equality comparer are not modelled: membership uses the default equality. An `ICollection<T>` whose `Contains` uses another comparer may decide differently.
- `Span<T>` and `ReadOnlySpan<T>` overloads of `MustBeShorterThan` are identical and modelled once, as `seq<T>`.
- `MustBeTrimmed` is defined twice in the source (`Check.StringAssertions.cs:202` and `Check.MustBeTrimmed.cs:26`) with the same logic. It is modelled once.
- `int` is unbounded. The C# `Length >= length` comparisons cannot overflow, so the checks lose nothing.
- StringAssertions.StrictAndNonStrictLength: it relates checks at `length` and `length + 1`. In C# `length + 1` wraps at `int.MaxValue`, so its C# reading holds only for `length < 2147483647`.
- ShorterThan.LengthInIsTwoBounds: it uses `range.to + 1` for an inclusive upper bound. Its C# reading holds only for `range.to < 2147483647`.
- `CallerArgumentExpression` capture is compile-time. `parameterName` is an explicit optional argument.
- `EquivalentTypeComparer`, the Uri, enum and type checks, the benchmark, the nullable-flow attribute tests and the older `exception:` API tests are not part of this model. They depend on reflection or parsing, which this model does not cover.
- `MethodImpl` and `ContractAnnotation` attributes are not part of this model.
