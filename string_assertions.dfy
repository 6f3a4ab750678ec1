/**
  The string checks of `Check.StringAssertions` (and the copy of `MustBeTrimmed`
  in `Check.MustBeTrimmed`): length bounds, "\n"/"\r\n", and the trimmed
  predicates. Every default form rejects `null` with an ArgumentNullException
  before it looks at the string; every custom form hands `null` to its factory.
  A Dafny `char` is a Unicode scalar value, so a `string` here stands for the
  .NET string with the same characters only when each of them lies in the
  Basic Multilingual Plane: then every character is one UTF-16 code unit and
  the lengths agree.
*/
module StringAssertions {
  import opened Guards
  import opened Ranges

  /**
    `char.IsWhiteSpace`: the Unicode space, line and paragraph separators, the
    control characters U+0009 to U+000D, U+0085 and U+00A0.
  */
  function IsWhiteSpace(c: char): (b: bool)
    ensures c < '\U{0080}' ==> (b <==> c == ' ' || '\t' <= c <= '\r')
    ensures b ==> c <= '\U{3000}'
    ensures c == '\U{200B}' || c == '\U{FEFF}' ==> !b
  {
    || c == ' '
    || '\t' <= c <= '\r'
    || c == '\U{0085}'
    || c == '\U{00A0}'
    || c == '\U{1680}'
    || '\U{2000}' <= c <= '\U{200A}'
    || c == '\U{2028}'
    || c == '\U{2029}'
    || c == '\U{202F}'
    || c == '\U{205F}'
    || c == '\U{3000}'
  }

  // ---------------------------------------------------------------------------
  // Length checks

  /**
    `parameter.MustBeLongerThan(length, parameterName, message)`: passes exactly
    when the string is present and strictly longer than `length`. `null` raises
    an ArgumentNullException, a string of length `<= length` a
    StringLengthException, both carrying the caller's name and message.
  */
  function MustBeLongerThan(parameter: Option<string>, length: int, parameterName: Option<string> := None, message: Option<string> := None): (r: Checked<string>)
    ensures r.Ok? <==> parameter.Some? && |parameter.value| > length
    ensures r.Ok? ==> r.value == parameter.value
    ensures parameter.None? ==> r == Fail(Fault(ArgumentNullException, parameterName, message))
    ensures parameter.Some? && |parameter.value| <= length ==>
      r == Fail(Fault(StringLengthException, parameterName, message))
  {
    match parameter
    case None => Fail(NullFault(parameterName, message))
    case Some(s) =>
      if |s| <= length then Fail(Fault(StringLengthException, parameterName, message)) else Ok(s)
  }

  /**
    `parameter.MustBeLongerThan(length, exceptionFactory)`: the factory gets
    `(parameter, length)` exactly when the string is `null` or not longer than
    `length`.
  */
  function MustBeLongerThanCustom(parameter: Option<string>, length: int): (r: Guarded<string, (Option<string>, int)>)
    ensures r.Passed? <==> parameter.Some? && |parameter.value| > length
    ensures r.Passed? ==> r.value == parameter.value
    ensures r.Custom? ==> r.args == (parameter, length)
  {
    if parameter.None? || |parameter.value| <= length then Custom((parameter, length)) else Passed(parameter.value)
  }

  /**
    `parameter.MustBeLongerThanOrEqualTo(length, parameterName, message)`: the
    non-strict variant, failing exactly when the length is `< length`.
  */
  function MustBeLongerThanOrEqualTo(parameter: Option<string>, length: int, parameterName: Option<string> := None, message: Option<string> := None): (r: Checked<string>)
    ensures r.Ok? <==> parameter.Some? && |parameter.value| >= length
    ensures r.Ok? ==> r.value == parameter.value
    ensures parameter.None? ==> r == Fail(Fault(ArgumentNullException, parameterName, message))
    ensures parameter.Some? && |parameter.value| < length ==>
      r == Fail(Fault(StringLengthException, parameterName, message))
  {
    match parameter
    case None => Fail(NullFault(parameterName, message))
    case Some(s) =>
      if |s| < length then Fail(Fault(StringLengthException, parameterName, message)) else Ok(s)
  }

  /** `parameter.MustBeLongerThanOrEqualTo(length, exceptionFactory)`. */
  function MustBeLongerThanOrEqualToCustom(parameter: Option<string>, length: int): (r: Guarded<string, (Option<string>, int)>)
    ensures r.Passed? <==> parameter.Some? && |parameter.value| >= length
    ensures r.Passed? ==> r.value == parameter.value
    ensures r.Custom? ==> r.args == (parameter, length)
  {
    if parameter.None? || |parameter.value| < length then Custom((parameter, length)) else Passed(parameter.value)
  }

  /**
    `parameter.MustHaveLengthIn(range, parameterName, message)`: passes exactly
    when the string is present and its length lies in the range.
  */
  function MustHaveLengthIn(parameter: Option<string>, range: Range, parameterName: Option<string> := None, message: Option<string> := None): (r: Checked<string>)
    ensures r.Ok? <==> parameter.Some? && IsValueWithinRange(range, |parameter.value|)
    ensures r.Ok? ==> r.value == parameter.value
    ensures parameter.None? ==> r == Fail(Fault(ArgumentNullException, parameterName, message))
    ensures parameter.Some? && !IsValueWithinRange(range, |parameter.value|) ==>
      r == Fail(Fault(StringLengthException, parameterName, message))
  {
    match parameter
    case None => Fail(NullFault(parameterName, message))
    case Some(s) =>
      if !IsValueWithinRange(range, |s|) then Fail(Fault(StringLengthException, parameterName, message)) else Ok(s)
  }

  /** `parameter.MustHaveLengthIn(range, exceptionFactory)`: the factory gets `(parameter, range)`, also for `null`. */
  function MustHaveLengthInCustom(parameter: Option<string>, range: Range): (r: Guarded<string, (Option<string>, Range)>)
    ensures r.Passed? <==> parameter.Some? && IsValueWithinRange(range, |parameter.value|)
    ensures r.Passed? ==> r.value == parameter.value
    ensures r.Custom? ==> r.args == (parameter, range)
  {
    if parameter.None? || !IsValueWithinRange(range, |parameter.value|) then Custom((parameter, range))
    else Passed(parameter.value)
  }

  /** Strict and non-strict length bounds differ by one, and only at `|s| == length`. */
  lemma StrictAndNonStrictLength(parameter: Option<string>, length: int)
    ensures MustBeLongerThan(parameter, length).Ok? <==> MustBeLongerThanOrEqualTo(parameter, length + 1).Ok?
    ensures MustBeLongerThanOrEqualTo(parameter, length).Ok? <==>
      MustBeLongerThan(parameter, length).Ok? || (parameter.Some? && |parameter.value| == length)
  {
  }

  /**
    The lower length bounds are length ranges from `length` up to
    `max(length, |s|)`, a range the constructor accepts, with the lower bound
    excluded for the strict check and included for the other.
  */
  lemma LongerThanAsLengthRange(s: string, length: int)
    ensures var hi := if |s| < length then length else |s|;
      && NewRange(length, hi, false, true).Ok?
      && (MustBeLongerThan(Some(s), length).Ok? <==> MustHaveLengthIn(Some(s), Range(length, hi, false, true)).Ok?)
      && (MustBeLongerThanOrEqualTo(Some(s), length).Ok? <==> MustHaveLengthIn(Some(s), Range(length, hi, true, true)).Ok?)
  {
  }

  // ---------------------------------------------------------------------------
  // New lines

  /** `parameter.IsNewLine()`: the string is "\n" or "\r\n"; `null` is not a new line. */
  function IsNewLine(parameter: Option<string>): (b: bool)
    ensures parameter.None? ==> !b
    ensures b ==> 1 <= |parameter.value| <= 2 && parameter.value[|parameter.value| - 1] == '\n'
    ensures b ==> forall i | 0 <= i < |parameter.value| :: IsWhiteSpace(parameter.value[i])
  {
    parameter == Some("\n") || parameter == Some("\r\n")
  }

  /**
    `parameter.MustBeNewLine(parameterName, message)`: `null` raises an
    ArgumentNullException, anything but "\n" or "\r\n" a StringException.
  */
  function MustBeNewLine(parameter: Option<string>, parameterName: Option<string> := None, message: Option<string> := None): (r: Checked<string>)
    ensures r.Ok? <==> IsNewLine(parameter)
    ensures r.Ok? ==> Some(r.value) == parameter && |r.value| in {1, 2} && r.value[|r.value| - 1] == '\n'
    ensures parameter.None? ==> r == Fail(Fault(ArgumentNullException, parameterName, message))
    ensures parameter.Some? && !IsNewLine(parameter) ==> r == Fail(Fault(StringException, parameterName, message))
  {
    match parameter
    case None => Fail(NullFault(parameterName, message))
    case Some(s) =>
      if !IsNewLine(parameter) then Fail(Fault(StringException, parameterName, message)) else Ok(s)
  }

  /**
    `parameter.MustBeNewLine(exceptionFactory)`: the factory gets `parameter`
    whenever it is not a new line; `null` is not one, so it reaches the factory.
  */
  function MustBeNewLineCustom(parameter: Option<string>): (r: Guarded<string, Option<string>>)
    ensures r.Passed? <==> IsNewLine(parameter)
    ensures r.Passed? ==> Some(r.value) == parameter
    ensures r.Custom? ==> r.args == parameter
    ensures parameter.None? ==> r == Custom(None)
  {
    if !IsNewLine(parameter) then Custom(parameter) else Passed(parameter.value)
  }

  // ---------------------------------------------------------------------------
  // Trimmed strings

  /** Every character of `s` is white space. */
  predicate AllWhiteSpace(s: string) {
    forall i | 0 <= i < |s| :: IsWhiteSpace(s[i])
  }

  /**
    `ReadOnlySpan<char>.IsTrimmedAtStart()`: empty, or not starting with white
    space; that is, no non-empty prefix of the span is all white space.
  */
  function SpanIsTrimmedAtStart(span: string): (b: bool)
    ensures b <==> forall k | 0 < k <= |span| :: !AllWhiteSpace(span[..k])
  {
    assert |span| > 0 ==> span[..1] == [span[0]];
    |span| == 0 || !IsWhiteSpace(span[0])
  }

  /**
    `ReadOnlySpan<char>.IsTrimmedAtEnd()`: empty, or not ending with white
    space; that is, no non-empty suffix of the span is all white space.
  */
  function SpanIsTrimmedAtEnd(span: string): (b: bool)
    ensures b <==> forall k | 0 <= k < |span| :: !AllWhiteSpace(span[k..])
  {
    assert |span| > 0 ==> span[|span| - 1..] == [span[|span| - 1]];
    |span| == 0 || !IsWhiteSpace(span[|span| - 1])
  }

  /** `ReadOnlySpan<char>.IsTrimmed()`: trimmed at both ends; the empty span is trimmed. */
  function SpanIsTrimmed(span: string): (b: bool)
    ensures b <==> SpanIsTrimmedAtStart(span) && SpanIsTrimmedAtEnd(span)
    ensures span == [] ==> b
  {
    |span| == 0 || (!IsWhiteSpace(span[0]) && !IsWhiteSpace(span[|span| - 1]))
  }

  /** `parameter.IsTrimmed(regardNullAsTrimmed)`: `null` answers `regardNullAsTrimmed` (true by default). */
  function IsTrimmed(parameter: Option<string>, regardNullAsTrimmed: bool := true): (b: bool)
    ensures parameter.None? ==> b == regardNullAsTrimmed
    ensures parameter.Some? ==> (b <==> SpanIsTrimmed(parameter.value))
  {
    match parameter
    case None => regardNullAsTrimmed
    case Some(s) => SpanIsTrimmed(s)
  }

  /** `parameter.IsTrimmedAtStart(regardNullAsTrimmed)`. */
  function IsTrimmedAtStart(parameter: Option<string>, regardNullAsTrimmed: bool := true): (b: bool)
    ensures parameter.None? ==> b == regardNullAsTrimmed
    ensures parameter.Some? ==> (b <==> SpanIsTrimmedAtStart(parameter.value))
  {
    match parameter
    case None => regardNullAsTrimmed
    case Some(s) => SpanIsTrimmedAtStart(s)
  }

  /** `parameter.IsTrimmedAtEnd(regardNullAsTrimmed)`. */
  function IsTrimmedAtEnd(parameter: Option<string>, regardNullAsTrimmed: bool := true): (b: bool)
    ensures parameter.None? ==> b == regardNullAsTrimmed
    ensures parameter.Some? ==> (b <==> SpanIsTrimmedAtEnd(parameter.value))
  {
    match parameter
    case None => regardNullAsTrimmed
    case Some(s) => SpanIsTrimmedAtEnd(s)
  }

  /** A present string is trimmed exactly when it is trimmed at its start and at its end. */
  lemma TrimmedIsBothEnds(parameter: Option<string>, regardNullAsTrimmed: bool)
    ensures parameter.Some? ==>
      (IsTrimmed(parameter, regardNullAsTrimmed) <==>
       IsTrimmedAtStart(parameter, regardNullAsTrimmed) && IsTrimmedAtEnd(parameter, regardNullAsTrimmed))
    ensures parameter.None? ==>
      IsTrimmed(parameter, regardNullAsTrimmed) == IsTrimmedAtStart(parameter, regardNullAsTrimmed) ==
      IsTrimmedAtEnd(parameter, regardNullAsTrimmed) == regardNullAsTrimmed
  {
  }

  /**
    `string.TrimStart()`, an independent reference for the start predicate: it
    drops exactly the leading white space.
  */
  function TrimStart(s: string): (t: string)
    ensures |t| <= |s| && t == s[|s| - |t|..]
    ensures forall i | 0 <= i < |s| - |t| :: IsWhiteSpace(s[i])
    ensures SpanIsTrimmedAtStart(t)
    decreases |s|
  {
    if |s| > 0 && IsWhiteSpace(s[0]) then
      var t := TrimStart(s[1..]);
      assert forall i | 1 <= i < |s| - |t| :: s[i] == s[1..][i - 1];
      t
    else
      s
  }

  /** `string.TrimEnd()`: drops exactly the trailing white space. */
  function TrimEnd(s: string): (t: string)
    ensures |t| <= |s| && t == s[..|t|]
    ensures forall i | |t| <= i < |s| :: IsWhiteSpace(s[i])
    ensures SpanIsTrimmedAtEnd(t)
    decreases |s|
  {
    if |s| > 0 && IsWhiteSpace(s[|s| - 1]) then
      var t := TrimEnd(s[..|s| - 1]);
      assert forall i | |t| <= i < |s| - 1 :: s[i] == s[..|s| - 1][i];
      t
    else
      s
  }

  /** `string.Trim()`: drops the leading and the trailing white space. */
  function Trim(s: string): (t: string)
    ensures SpanIsTrimmed(t)
  {
    var u := TrimStart(s);
    var t := TrimEnd(u);
    assert t != [] ==> t[0] == u[0];
    t
  }

  /** A string is trimmed at its start exactly when `TrimStart` leaves it unchanged. */
  lemma TrimmedAtStartIffTrimStartKeeps(s: string)
    ensures SpanIsTrimmedAtStart(s) <==> TrimStart(s) == s
  {
  }

  /** A string is trimmed at its end exactly when `TrimEnd` leaves it unchanged. */
  lemma TrimmedAtEndIffTrimEndKeeps(s: string)
    ensures SpanIsTrimmedAtEnd(s) <==> TrimEnd(s) == s
  {
  }

  /** A string is trimmed exactly when `Trim` leaves it unchanged; `Trim` is idempotent. */
  lemma TrimmedIffTrimKeeps(s: string)
    ensures SpanIsTrimmed(s) <==> Trim(s) == s
    ensures Trim(Trim(s)) == Trim(s)
  {
    TrimmedAtStartIffTrimStartKeeps(s);
    TrimmedAtEndIffTrimEndKeeps(s);
    var t := Trim(s);
    TrimmedAtStartIffTrimStartKeeps(t);
    TrimmedAtEndIffTrimEndKeeps(t);
  }

  /**
    `parameter.MustBeTrimmed(parameterName, message)`: `null` raises an
    ArgumentNullException, leading or trailing white space a StringException;
    the empty string passes.
  */
  function MustBeTrimmed(parameter: Option<string>, parameterName: Option<string> := None, message: Option<string> := None): (r: Checked<string>)
    ensures r.Ok? <==> parameter.Some? && SpanIsTrimmed(parameter.value)
    ensures r.Ok? ==> r.value == parameter.value
    ensures parameter.None? ==> r == Fail(Fault(ArgumentNullException, parameterName, message))
    ensures parameter.Some? && !SpanIsTrimmed(parameter.value) ==>
      r == Fail(Fault(StringException, parameterName, message))
    ensures parameter == Some("") ==> r == Ok("")
  {
    match parameter
    case None => Fail(NullFault(parameterName, message))
    case Some(s) =>
      if !IsTrimmed(parameter) then Fail(Fault(StringException, parameterName, message)) else Ok(s)
  }

  /** `parameter.MustBeTrimmed(exceptionFactory)`: the factory gets `parameter` when it is `null` or not trimmed. */
  function MustBeTrimmedCustom(parameter: Option<string>): (r: Guarded<string, Option<string>>)
    ensures r.Passed? <==> parameter.Some? && SpanIsTrimmed(parameter.value)
    ensures r.Passed? ==> r.value == parameter.value
    ensures r.Custom? ==> r.args == parameter
  {
    if parameter.None? || !SpanIsTrimmed(parameter.value) then Custom(parameter) else Passed(parameter.value)
  }

  /** `parameter.MustBeTrimmedAtStart(parameterName, message)`. */
  function MustBeTrimmedAtStart(parameter: Option<string>, parameterName: Option<string> := None, message: Option<string> := None): (r: Checked<string>)
    ensures r.Ok? <==> parameter.Some? && SpanIsTrimmedAtStart(parameter.value)
    ensures r.Ok? ==> r.value == parameter.value
    ensures parameter.None? ==> r == Fail(Fault(ArgumentNullException, parameterName, message))
    ensures parameter.Some? && !SpanIsTrimmedAtStart(parameter.value) ==>
      r == Fail(Fault(StringException, parameterName, message))
  {
    match parameter
    case None => Fail(NullFault(parameterName, message))
    case Some(s) =>
      if !IsTrimmedAtStart(parameter) then Fail(Fault(StringException, parameterName, message)) else Ok(s)
  }

  /** `parameter.MustBeTrimmedAtStart(exceptionFactory)`. */
  function MustBeTrimmedAtStartCustom(parameter: Option<string>): (r: Guarded<string, Option<string>>)
    ensures r.Passed? <==> parameter.Some? && SpanIsTrimmedAtStart(parameter.value)
    ensures r.Passed? ==> r.value == parameter.value
    ensures r.Custom? ==> r.args == parameter
  {
    if parameter.None? || !SpanIsTrimmedAtStart(parameter.value) then Custom(parameter) else Passed(parameter.value)
  }

  /** `parameter.MustBeTrimmedAtEnd(parameterName, message)`. */
  function MustBeTrimmedAtEnd(parameter: Option<string>, parameterName: Option<string> := None, message: Option<string> := None): (r: Checked<string>)
    ensures r.Ok? <==> parameter.Some? && SpanIsTrimmedAtEnd(parameter.value)
    ensures r.Ok? ==> r.value == parameter.value
    ensures parameter.None? ==> r == Fail(Fault(ArgumentNullException, parameterName, message))
    ensures parameter.Some? && !SpanIsTrimmedAtEnd(parameter.value) ==>
      r == Fail(Fault(StringException, parameterName, message))
  {
    match parameter
    case None => Fail(NullFault(parameterName, message))
    case Some(s) =>
      if !IsTrimmedAtEnd(parameter) then Fail(Fault(StringException, parameterName, message)) else Ok(s)
  }

  /** `parameter.MustBeTrimmedAtEnd(exceptionFactory)`. */
  function MustBeTrimmedAtEndCustom(parameter: Option<string>): (r: Guarded<string, Option<string>>)
    ensures r.Passed? <==> parameter.Some? && SpanIsTrimmedAtEnd(parameter.value)
    ensures r.Passed? ==> r.value == parameter.value
    ensures r.Custom? ==> r.args == parameter
  {
    if parameter.None? || !SpanIsTrimmedAtEnd(parameter.value) then Custom(parameter) else Passed(parameter.value)
  }

  /** `MustBeTrimmed` passes exactly the strings `string.Trim()` leaves unchanged. */
  lemma MustBeTrimmedMeansTrimKeeps(s: string, parameterName: Option<string>, message: Option<string>)
    ensures MustBeTrimmed(Some(s), parameterName, message).Ok? <==> Trim(s) == s
    ensures MustBeTrimmedAtStart(Some(s), parameterName, message).Ok? <==> TrimStart(s) == s
    ensures MustBeTrimmedAtEnd(Some(s), parameterName, message).Ok? <==> TrimEnd(s) == s
  {
    TrimmedIffTrimKeeps(s);
    TrimmedAtStartIffTrimStartKeeps(s);
    TrimmedAtEndIffTrimEndKeeps(s);
  }

  /** A new line consists of white space, so it is trimmed at neither end. */
  lemma NewLineIsNotTrimmed(parameter: Option<string>)
    requires IsNewLine(parameter)
    ensures !IsTrimmed(parameter) && !IsTrimmedAtStart(parameter) && !IsTrimmedAtEnd(parameter)
    ensures MustBeTrimmed(parameter).Fail? && MustBeNewLine(parameter).Ok?
  {
  }

  /**
    Both reporting paths of every string check decide alike: the default form
    returns the string exactly when the custom form does not call its factory,
    and then both return the same string.
  */
  lemma StringPathsAgree(parameter: Option<string>, length: int, range: Range, parameterName: Option<string>, message: Option<string>)
    ensures MustBeLongerThan(parameter, length, parameterName, message).Ok? <==> MustBeLongerThanCustom(parameter, length).Passed?
    ensures MustBeLongerThanOrEqualTo(parameter, length, parameterName, message).Ok? <==>
            MustBeLongerThanOrEqualToCustom(parameter, length).Passed?
    ensures MustHaveLengthIn(parameter, range, parameterName, message).Ok? <==> MustHaveLengthInCustom(parameter, range).Passed?
    ensures MustBeNewLine(parameter, parameterName, message).Ok? <==> MustBeNewLineCustom(parameter).Passed?
    ensures MustBeTrimmed(parameter, parameterName, message).Ok? <==> MustBeTrimmedCustom(parameter).Passed?
    ensures MustBeTrimmedAtStart(parameter, parameterName, message).Ok? <==> MustBeTrimmedAtStartCustom(parameter).Passed?
    ensures MustBeTrimmedAtEnd(parameter, parameterName, message).Ok? <==> MustBeTrimmedAtEndCustom(parameter).Passed?
  {
  }

  /** A string that passed a check passes it again with the same result. */
  lemma StringChecksIdempotent(parameter: Option<string>, length: int, range: Range, parameterName: Option<string>, message: Option<string>)
    ensures var r := MustBeLongerThan(parameter, length, parameterName, message);
      r.Ok? ==> MustBeLongerThan(Some(r.value), length, parameterName, message) == r
    ensures var r := MustBeLongerThanOrEqualTo(parameter, length, parameterName, message);
      r.Ok? ==> MustBeLongerThanOrEqualTo(Some(r.value), length, parameterName, message) == r
    ensures var r := MustHaveLengthIn(parameter, range, parameterName, message);
      r.Ok? ==> MustHaveLengthIn(Some(r.value), range, parameterName, message) == r
    ensures var r := MustBeTrimmed(parameter, parameterName, message);
      r.Ok? ==> MustBeTrimmed(Some(r.value), parameterName, message) == r
    ensures var r := MustBeTrimmedAtStart(parameter, parameterName, message);
      r.Ok? ==> MustBeTrimmedAtStart(Some(r.value), parameterName, message) == r
    ensures var r := MustBeTrimmedAtEnd(parameter, parameterName, message);
      r.Ok? ==> MustBeTrimmedAtEnd(Some(r.value), parameterName, message) == r
    ensures var r := MustBeNewLine(parameter, parameterName, message);
      r.Ok? ==> MustBeNewLine(Some(r.value), parameterName, message) == r
  {
  }
}
