/**
  `Check.MustBeShorterThan`: the strict upper length bound for strings and for
  spans. `Span<T>` and `ReadOnlySpan<T>` behave identically and are both the
  sequence `seq<T>` here; a span cannot be `null`, so it has no null case.
*/
module ShorterThan {
  import opened Guards
  import opened Ranges
  import StringAssertions

  /**
    `parameter.MustBeShorterThan(length, parameterName, message)` on a string:
    `null` raises an ArgumentNullException, a length `>= length` a
    StringLengthException, and a shorter string is returned unchanged.
  */
  function MustBeShorterThan(parameter: Option<string>, length: int, parameterName: Option<string> := None, message: Option<string> := None): (r: Checked<string>)
    ensures r.Ok? <==> parameter.Some? && |parameter.value| < length
    ensures r.Ok? ==> r.value == parameter.value
    ensures parameter.None? ==> r == Fail(Fault(ArgumentNullException, parameterName, message))
    ensures parameter.Some? && |parameter.value| >= length ==>
      r == Fail(Fault(StringLengthException, parameterName, message))
  {
    match parameter
    case None => Fail(NullFault(parameterName, message))
    case Some(s) =>
      if |s| >= length then Fail(Fault(StringLengthException, parameterName, message)) else Ok(s)
  }

  /** `parameter.MustBeShorterThan(length, exceptionFactory)`: the factory gets `(parameter, length)`, also for `null`. */
  function MustBeShorterThanCustom(parameter: Option<string>, length: int): (r: Guarded<string, (Option<string>, int)>)
    ensures r.Passed? <==> parameter.Some? && |parameter.value| < length
    ensures r.Passed? ==> r.value == parameter.value
    ensures r.Custom? ==> r.args == (parameter, length)
  {
    if parameter.None? || |parameter.value| >= length then Custom((parameter, length)) else Passed(parameter.value)
  }

  /**
    `span.MustBeShorterThan(length, parameterName, message)` for `Span<T>` and
    `ReadOnlySpan<T>`: a length `>= length` raises an
    InvalidCollectionCountException, otherwise the span is returned unchanged.
  */
  function SpanMustBeShorterThan<T>(parameter: seq<T>, length: int, parameterName: Option<string> := None, message: Option<string> := None): (r: Checked<seq<T>>)
    ensures r.Ok? <==> |parameter| < length
    ensures r.Ok? ==> r.value == parameter
    ensures r.Fail? ==> r.fault == Fault(InvalidCollectionCountException, parameterName, message)
  {
    if |parameter| >= length then Fail(Fault(InvalidCollectionCountException, parameterName, message)) else Ok(parameter)
  }

  /** `span.MustBeShorterThan(length, exceptionFactory)`: the span factory gets `(span, length)` on failure only. */
  function SpanMustBeShorterThanCustom<T>(parameter: seq<T>, length: int): (r: Guarded<seq<T>, (seq<T>, int)>)
    ensures r.Passed? <==> |parameter| < length
    ensures r.Passed? ==> r.value == parameter
    ensures r.Custom? ==> r.args == (parameter, length)
  {
    if |parameter| >= length then Custom((parameter, length)) else Passed(parameter)
  }

  /** Because the test is `>=`, a bound of zero or less rejects every string and every span. */
  lemma NonPositiveLengthRejectsAll<T>(s: Option<string>, span: seq<T>, length: int, parameterName: Option<string>, message: Option<string>)
    requires length <= 0
    ensures MustBeShorterThan(s, length, parameterName, message).Fail?
    ensures MustBeShorterThanCustom(s, length) == Custom((s, length))
    ensures SpanMustBeShorterThan(span, length, parameterName, message).Fail?
    ensures SpanMustBeShorterThanCustom(span, length) == Custom((span, length))
  {
  }

  /** Checking an argument that passed once gives the same result again. */
  lemma ShorterThanIdempotent<T>(s: Option<string>, span: seq<T>, length: int, parameterName: Option<string>, message: Option<string>)
    ensures var r := MustBeShorterThan(s, length, parameterName, message);
      r.Ok? ==> MustBeShorterThan(Some(r.value), length, parameterName, message) == r
    ensures var r := SpanMustBeShorterThan(span, length, parameterName, message);
      r.Ok? ==> SpanMustBeShorterThan(r.value, length, parameterName, message) == r
  {
  }

  /**
    For a present string, `MustBeShorterThan(length)` is the exact complement of
    `MustBeLongerThanOrEqualTo(length)`, and the two reporting paths agree.
  */
  lemma ShorterThanComplementsLongerOrEqual(s: string, length: int, parameterName: Option<string>, message: Option<string>)
    ensures MustBeShorterThan(Some(s), length, parameterName, message).Ok? <==>
            StringAssertions.MustBeLongerThanOrEqualTo(Some(s), length, parameterName, message).Fail?
    ensures MustBeShorterThan(Some(s), length, parameterName, message).Ok? <==> MustBeShorterThanCustom(Some(s), length).Passed?
    ensures MustBeShorterThan(None, length, parameterName, message) ==
            StringAssertions.MustBeLongerThanOrEqualTo(None, length, parameterName, message)
  {
  }

  /**
    `MustHaveLengthIn` is the conjunction of a lower and an upper length check,
    each strict or not according to the range's flags.
  */
  lemma LengthInIsTwoBounds(s: Option<string>, range: Range, parameterName: Option<string>, message: Option<string>)
    ensures StringAssertions.MustHaveLengthIn(s, range, parameterName, message).Ok? <==>
      (if range.isFromInclusive then StringAssertions.MustBeLongerThanOrEqualTo(s, range.from).Ok?
       else StringAssertions.MustBeLongerThan(s, range.from).Ok?) &&
      (if range.isToInclusive then MustBeShorterThan(s, range.to + 1).Ok?
       else MustBeShorterThan(s, range.to).Ok?)
  {
  }

  /** A string passes the span form exactly when it passes the string form. */
  lemma StringIsSpan(s: string, length: int, parameterName: Option<string>, message: Option<string>)
    ensures MustBeShorterThan(Some(s), length, parameterName, message).Ok? <==>
            SpanMustBeShorterThan(s, length, parameterName, message).Ok?
  {
  }
}
