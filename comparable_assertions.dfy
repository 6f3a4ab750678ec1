/**
  The comparable assertions the library's tests pin down: `MustBeGreaterThan`,
  `MustNotBeGreaterThanOrEqualTo` and `MustNotBeIn`, each in its default form
  (templated ArgumentOutOfRangeException) and, where the tests show one, its
  custom-factory form.
*/
module ComparableAssertions {
  import opened Guards
  import opened Formatting
  import opened Ranges
  import Throw

  /**
    `parameter.MustBeGreaterThan(boundary)`: passes exactly when
    `parameter > boundary`; otherwise raises what `Throw.MustBeGreaterThan`
    builds.
  */
  function MustBeGreaterThan(parameter: int, boundary: int, parameterName: Option<string> := None, message: Option<string> := None): (r: Checked<int>)
    ensures r.Ok? <==> parameter > boundary
    ensures r.Ok? ==> r.value == parameter
    ensures r.Fail? ==> r.fault == Throw.MustBeGreaterThan(parameter, boundary, parameterName, message)
  {
    if parameter <= boundary then Fail(Throw.MustBeGreaterThan(parameter, boundary, parameterName, message))
    else Ok(parameter)
  }

  /** `"{name} must not be greater than or equal to {boundary}, but it actually is {parameter}."` */
  function NotGreaterThanOrEqualToMessage(parameterName: Option<string>, boundary: int, parameter: int): (m: string)
    ensures var n := Throw.NameOrTheValue(parameterName); |m| > |n| && m[..|n|] == n
    ensures |m| > |ShowInt(parameter)| && m[|m| - |ShowInt(parameter)| - 1..] == ShowInt(parameter) + "."
  {
    MessageAffixes(Throw.NameOrTheValue(parameterName), " must not be greater than or equal to ", ShowInt(boundary),
      ", but it actually is ", ShowInt(parameter), ".");
    Throw.NameOrTheValue(parameterName) + " must not be greater than or equal to " + ShowInt(boundary) +
    ", but it actually is " + ShowInt(parameter) + "."
  }

  /** For one parameter name, the templated message tells the boundary and the value apart from all others. */
  lemma NotGreaterThanOrEqualToMessageDetermines(parameterName: Option<string>, boundary: int, parameter: int, boundary': int, parameter': int)
    requires NotGreaterThanOrEqualToMessage(parameterName, boundary, parameter) ==
             NotGreaterThanOrEqualToMessage(parameterName, boundary', parameter')
    ensures boundary == boundary' && parameter == parameter'
  {
    TwoValueMessageDetermines(Throw.NameOrTheValue(parameterName) + " must not be greater than or equal to ",
      ", but it actually is ", boundary, parameter, boundary', parameter');
  }

  /**
    `parameter.MustNotBeGreaterThanOrEqualTo(boundary, parameterName, message)`:
    passes exactly when `parameter < boundary`; otherwise an
    ArgumentOutOfRangeException named `parameterName` whose message is the
    caller's, or the template.
  */
  function MustNotBeGreaterThanOrEqualTo(parameter: int, boundary: int, parameterName: Option<string> := None, message: Option<string> := None): (r: Checked<int>)
    ensures r.Ok? <==> parameter < boundary
    ensures r.Ok? ==> r.value == parameter
    ensures r.Fail? ==> r.fault.kind == ArgumentOutOfRangeException && r.fault.paramName == parameterName
    ensures r.Fail? && message.Some? ==> r.fault.message == message
    ensures r.Fail? && message.None? ==>
      r.fault.message == Some(NotGreaterThanOrEqualToMessage(parameterName, boundary, parameter))
  {
    if parameter >= boundary then
      var text := match message
        case Some(m) => m
        case None => NotGreaterThanOrEqualToMessage(parameterName, boundary, parameter);
      Fail(Fault(ArgumentOutOfRangeException, parameterName, Some(text)))
    else
      Ok(parameter)
  }

  /**
    `parameter.MustNotBeGreaterThanOrEqualTo(boundary, exceptionFactory)`: the
    factory gets `(parameter, boundary)` exactly when `parameter >= boundary`.
  */
  function MustNotBeGreaterThanOrEqualToCustom(parameter: int, boundary: int): (r: Guarded<int, (int, int)>)
    ensures r.Passed? <==> parameter < boundary
    ensures r.Passed? ==> r.value == parameter
    ensures r.Custom? ==> r.args == (parameter, boundary)
  {
    if parameter >= boundary then Custom((parameter, boundary)) else Passed(parameter)
  }

  /** How a message shows whether a bound belongs to the range. */
  function BoundText(inclusive: bool): (s: string)
    ensures |s| == 11
  {
    if inclusive then "(inclusive)" else "(exclusive)"
  }

  /** `"{from} (inclusive|exclusive) and {to} (inclusive|exclusive)"` */
  function RangeDescription(r: Range): (d: string)
    ensures |d| > |ShowInt(r.from)| && d[..|ShowInt(r.from)|] == ShowInt(r.from)
    ensures |d| >= 11 && d[|d| - 11..] == BoundText(r.isToInclusive)
  {
    DescriptionAffixes(ShowInt(r.from), " ", BoundText(r.isFromInclusive), " and ", ShowInt(r.to), BoundText(r.isToInclusive));
    ShowInt(r.from) + " " + BoundText(r.isFromInclusive) + " and " + ShowInt(r.to) + " " + BoundText(r.isToInclusive)
  }

  /** `Affixes` for the seven parts of a range description (kept over variables so the solver need not unfold the texts). */
  lemma DescriptionAffixes(f: string, s: string, bf: string, a: string, t: string, bt: string)
    ensures (f + s + bf + a + t + s + bt)[..|f|] == f
    ensures (f + s + bf + a + t + s + bt)[|f + s + bf + a + t + s + bt| - |bt|..] == bt
  {
    assert f + s + bf + a + t + s + bt == f + (s + bf + a + t + s) + bt;
    Affixes(f, s + bf + a + t + s, bt);
  }

  /** `"{name} must not be between {range}, but it actually is {parameter}."` */
  function NotInRangeMessage(parameterName: Option<string>, r: Range, parameter: int): (m: string)
    ensures var n := Throw.NameOrTheValue(parameterName); |m| > |n| && m[..|n|] == n
    ensures |m| > |ShowInt(parameter)| && m[|m| - |ShowInt(parameter)| - 1..] == ShowInt(parameter) + "."
  {
    MessageAffixes(Throw.NameOrTheValue(parameterName), " must not be between ", RangeDescription(r),
      ", but it actually is ", ShowInt(parameter), ".");
    Throw.NameOrTheValue(parameterName) + " must not be between " + RangeDescription(r) +
    ", but it actually is " + ShowInt(parameter) + "."
  }

  lemma BoundTextInjective(a: bool, b: bool)
    requires BoundText(a) == BoundText(b)
    ensures a == b
  {
  }

  /** `" (inclusive|exclusive), but it actually is {value}."`: the part of the message after the upper bound. */
  function ValueTail(isToInclusive: bool, parameter: int): string {
    " " + BoundText(isToInclusive) + ", but it actually is " + (ShowInt(parameter) + ".")
  }

  /** The part of the message after the lower bound. */
  function UpperTail(r: Range, parameter: int): string {
    " " + BoundText(r.isFromInclusive) + " and " + (ShowInt(r.to) + ValueTail(r.isToInclusive, parameter))
  }

  lemma ValueTailDetermines(t: bool, v: int, t': bool, v': int)
    requires ValueTail(t, v) == ValueTail(t', v')
    ensures t == t' && v == v'
  {
    var a, a' := " " + BoundText(t) + ", but it actually is ", " " + BoundText(t') + ", but it actually is ";
    assert ValueTail(t, v) == a + (ShowInt(v) + ".") && ValueTail(t', v') == a' + (ShowInt(v') + ".");
    SplitEqualLengths(a, ShowInt(v) + ".", a', ShowInt(v') + ".");
    assert BoundText(t) == a[1..12] && BoundText(t') == a'[1..12];
    BoundTextInjective(t, t');
    ShowIntPrefixUnique(v, v', ".", ".");
  }

  lemma UpperTailDetermines(r: Range, v: int, r': Range, v': int)
    requires r.from == r'.from
    requires UpperTail(r, v) == UpperTail(r', v')
    ensures r == r' && v == v'
  {
    var a, a' := " " + BoundText(r.isFromInclusive) + " and ", " " + BoundText(r'.isFromInclusive) + " and ";
    var b, b' := ShowInt(r.to) + ValueTail(r.isToInclusive, v), ShowInt(r'.to) + ValueTail(r'.isToInclusive, v');
    assert UpperTail(r, v) == a + b && UpperTail(r', v') == a' + b';
    SplitEqualLengths(a, b, a', b');
    assert BoundText(r.isFromInclusive) == a[1..12] && BoundText(r'.isFromInclusive) == a'[1..12];
    BoundTextInjective(r.isFromInclusive, r'.isFromInclusive);
    ShowIntPrefixUnique(r.to, r'.to, ValueTail(r.isToInclusive, v), ValueTail(r'.isToInclusive, v'));
    ValueTailDetermines(r.isToInclusive, v, r'.isToInclusive, v');
  }

  lemma NotInRangeMessageSplits(parameterName: Option<string>, r: Range, parameter: int)
    ensures NotInRangeMessage(parameterName, r, parameter) ==
      (Throw.NameOrTheValue(parameterName) + " must not be between ") + (ShowInt(r.from) + UpperTail(r, parameter))
  {
    Regroup(Throw.NameOrTheValue(parameterName), " must not be between ", ShowInt(r.from), " ", BoundText(r.isFromInclusive),
      " and ", ShowInt(r.to), BoundText(r.isToInclusive), ", but it actually is ", ShowInt(parameter), ".");
  }

  /** Reassociates the range message around its lower bound; over variables, because the literal texts make this step costly. */
  lemma Regroup(n: string, p: string, f: string, s: string, bf: string, a: string, t: string, bt: string, c: string, v: string, d: string)
    ensures n + p + (f + s + bf + a + t + s + bt) + c + v + d ==
            (n + p) + (f + (s + bf + a + (t + (s + bt + c + (v + d)))))
  {
  }

  /**
    For one parameter name, the MustNotBeIn message determines the whole range
    (both bounds and both inclusivity flags) and the offending value.
  */
  lemma NotInRangeMessageDetermines(parameterName: Option<string>, r: Range, parameter: int, r': Range, parameter': int)
    requires NotInRangeMessage(parameterName, r, parameter) == NotInRangeMessage(parameterName, r', parameter')
    ensures r == r' && parameter == parameter'
  {
    var prefix := Throw.NameOrTheValue(parameterName) + " must not be between ";
    NotInRangeMessageSplits(parameterName, r, parameter);
    NotInRangeMessageSplits(parameterName, r', parameter');
    CancelPrefix(prefix, ShowInt(r.from) + UpperTail(r, parameter), ShowInt(r'.from) + UpperTail(r', parameter'));
    ShowIntPrefixUnique(r.from, r'.from, UpperTail(r, parameter), UpperTail(r', parameter'));
    UpperTailDetermines(r, parameter, r', parameter');
  }

  /**
    `parameter.MustNotBeIn(range, parameterName, message)`: passes exactly when
    the value is outside the range (an excluded endpoint is outside); otherwise
    an ArgumentOutOfRangeException named `parameterName` whose message is the
    caller's, or the template describing the range.
  */
  function MustNotBeIn(parameter: int, range: Range, parameterName: Option<string> := None, message: Option<string> := None): (r: Checked<int>)
    ensures r.Ok? <==> !IsValueWithinRange(range, parameter)
    ensures r.Ok? ==> r.value == parameter
    ensures r.Fail? ==> r.fault.kind == ArgumentOutOfRangeException && r.fault.paramName == parameterName
    ensures r.Fail? && message.Some? ==> r.fault.message == message
    ensures r.Fail? && message.None? ==> r.fault.message == Some(NotInRangeMessage(parameterName, range, parameter))
  {
    if IsValueWithinRange(range, parameter) then
      var text := match message
        case Some(m) => m
        case None => NotInRangeMessage(parameterName, range, parameter);
      Fail(Fault(ArgumentOutOfRangeException, parameterName, Some(text)))
    else
      Ok(parameter)
  }

  /**
    `parameter.MustNotBeIn(range, exceptionFactory)`: the factory gets
    `(parameter, range)` exactly when the value lies in the range.
  */
  function MustNotBeInCustom(parameter: int, range: Range): (r: Guarded<int, (int, Range)>)
    ensures r.Passed? <==> !IsValueWithinRange(range, parameter)
    ensures r.Passed? ==> r.value == parameter
    ensures r.Custom? ==> r.args == (parameter, range)
  {
    if IsValueWithinRange(range, parameter) then Custom((parameter, range)) else Passed(parameter)
  }

  /** `x.MustNotBeGreaterThanOrEqualTo(b)` and `b.MustBeGreaterThan(x)` accept the same pairs. */
  lemma NotGreaterOrEqualIsConverseOfGreater(parameter: int, boundary: int)
    ensures MustNotBeGreaterThanOrEqualTo(parameter, boundary).Ok? <==> MustBeGreaterThan(boundary, parameter).Ok?
  {
  }

  /**
    Both reporting paths of a check decide alike: the default form returns the
    value exactly when the custom form does not call its factory.
  */
  lemma ComparablePathsAgree(parameter: int, boundary: int, range: Range, parameterName: Option<string>, message: Option<string>)
    ensures MustNotBeGreaterThanOrEqualTo(parameter, boundary, parameterName, message).Ok? <==>
            MustNotBeGreaterThanOrEqualToCustom(parameter, boundary).Passed?
    ensures MustNotBeIn(parameter, range, parameterName, message).Ok? <==> MustNotBeInCustom(parameter, range).Passed?
  {
  }

  /** Checking a value that passed once gives the same result again. */
  lemma ComparableChecksIdempotent(parameter: int, boundary: int, range: Range, parameterName: Option<string>, message: Option<string>)
    ensures var r := MustBeGreaterThan(parameter, boundary, parameterName, message);
      r.Ok? ==> MustBeGreaterThan(r.value, boundary, parameterName, message) == r
    ensures var r := MustNotBeGreaterThanOrEqualTo(parameter, boundary, parameterName, message);
      r.Ok? ==> MustNotBeGreaterThanOrEqualTo(r.value, boundary, parameterName, message) == r
    ensures var r := MustNotBeIn(parameter, range, parameterName, message);
      r.Ok? ==> MustNotBeIn(r.value, range, parameterName, message) == r
  {
  }

  /** `1.MustNotBeIn(Range<int>.FromInclusive(1).ToExclusive(5), "value")` and its message. */
  lemma MustNotBeInInclusiveExclusiveExample()
    ensures ToExclusive(FromInclusive(1), 5) == Ok(Range(1, 5, true, false))
    ensures MustNotBeIn(1, Range(1, 5, true, false), Some("value")) ==
      Fail(Fault(ArgumentOutOfRangeException, Some("value"), Some(
        "value" + " must not be between " + ("1" + " " + "(inclusive)" + " and " + "5" + " " + "(exclusive)") +
        ", but it actually is " + "1" + ".")))
  {
    assert ShowInt(1) == "1" && ShowInt(5) == "5";
  }

  /** `5.MustNotBeIn(Range<short>.FromExclusive(1).ToInclusive(5), "value")` and its message. */
  lemma MustNotBeInExclusiveInclusiveExample()
    ensures ToInclusive(FromExclusive(1), 5) == Ok(Range(1, 5, false, true))
    ensures MustNotBeIn(5, Range(1, 5, false, true), Some("value")) ==
      Fail(Fault(ArgumentOutOfRangeException, Some("value"), Some(
        "value" + " must not be between " + ("1" + " " + "(exclusive)" + " and " + "5" + " " + "(inclusive)") +
        ", but it actually is " + "5" + ".")))
  {
    assert ShowInt(1) == "1" && ShowInt(5) == "5";
  }

  /** Values outside the range, excluded endpoints among them, come back unchanged; the factory sees `(12, [10, 15])`. */
  lemma MustNotBeInOutsideExamples()
    ensures MustNotBeIn(9, Range(10, 20, true, true), Some("value")) == Ok(9)
    ensures MustNotBeIn(21, Range(10, 20, true, true), Some("value")) == Ok(21)
    ensures MustNotBeIn(20, Range(10, 20, true, false), Some("value")) == Ok(20)
    ensures MustNotBeIn(10, Range(10, 20, false, false), Some("value")) == Ok(10)
    ensures MustNotBeIn(181, Range(10, 20, false, false), Some("value")) == Ok(181)
    ensures MustNotBeInCustom(12, Range(10, 15, true, true)) == Custom((12, Range(10, 15, true, true)))
  {
  }

  /** The MustNotBeGreaterThanOrEqualTo scenarios: failures at and above the boundary, passes below it. */
  lemma MustNotBeGreaterThanOrEqualToExamples()
    ensures MustNotBeGreaterThanOrEqualTo(2, 1, Some("value")) ==
      Fail(Fault(ArgumentOutOfRangeException, Some("value"), Some(
        "value" + " must not be greater than or equal to " + "1" + ", but it actually is " + "2" + ".")))
    ensures MustNotBeGreaterThanOrEqualTo(1, 1, Some("value")).Fail?
    ensures MustNotBeGreaterThanOrEqualTo(-87, -88, Some("value")).Fail?
    ensures MustNotBeGreaterThanOrEqualTo(0, 1) == Ok(0)
    ensures MustNotBeGreaterThanOrEqualTo(-80, -70) == Ok(-80)
    ensures MustNotBeGreaterThanOrEqualToCustom(20, 10) == Custom((20, 10))
    ensures MustNotBeGreaterThanOrEqualTo(300, 300, None, Some("This is a custom exception message")).fault.message ==
      Some("This is a custom exception message")
  {
    assert ShowInt(1) == "1" && ShowInt(2) == "2";
  }
}
