/**
  `Check.MustNotContain`: a collection must not hold an item, and a string must
  not hold a substring (ordinally, or under a `StringComparison`).
*/
module MustNotContain {
  import opened Guards

  // ---------------------------------------------------------------------------
  // Collections

  /**
    `parameter.MustNotContain(item, parameterName, message)` on a collection:
    `null` raises an ArgumentNullException; a collection holding `item` (by the
    default equality) raises an ExistingItemException; any other collection is
    returned unchanged. `ICollection<T>.Contains` and the enumerating `Contains`
    answer alike for the default equality, so both branches are one here.
  */
  function CollectionMustNotContain<T(==)>(parameter: Option<seq<T>>, item: T, parameterName: Option<string> := None, message: Option<string> := None): (r: Checked<seq<T>>)
    ensures r.Ok? <==> parameter.Some? && forall i | 0 <= i < |parameter.value| :: parameter.value[i] != item
    ensures r.Ok? ==> r.value == parameter.value
    ensures parameter.None? ==> r == Fail(Fault(ArgumentNullException, parameterName, message))
    ensures parameter.Some? && item in parameter.value ==> r == Fail(Fault(ExistingItemException, parameterName, message))
  {
    match parameter
    case None => Fail(NullFault(parameterName, message))
    case Some(items) =>
      if item in items then Fail(Fault(ExistingItemException, parameterName, message)) else Ok(items)
  }

  /** `parameter.MustNotContain(item, exceptionFactory)`: the factory gets `(parameter, item)` for `null` or a hit. */
  function CollectionMustNotContainCustom<T(==)>(parameter: Option<seq<T>>, item: T): (r: Guarded<seq<T>, (Option<seq<T>>, T)>)
    ensures r.Passed? <==> parameter.Some? && item !in parameter.value
    ensures r.Passed? ==> r.value == parameter.value
    ensures r.Custom? ==> r.args == (parameter, item)
  {
    if parameter.None? || item in parameter.value then Custom((parameter, item)) else Passed(parameter.value)
  }

  /** A concatenation passes exactly when both parts pass. */
  lemma CollectionCheckSplits<T>(a: seq<T>, b: seq<T>, item: T)
    ensures CollectionMustNotContain(Some(a + b), item).Ok? <==>
            CollectionMustNotContain(Some(a), item).Ok? && CollectionMustNotContain(Some(b), item).Ok?
  {
    assert forall x :: x in a + b <==> x in a || x in b;
  }

  // ---------------------------------------------------------------------------
  // Ordinal substring search

  /** `value` occurs in `s` starting at index `i`. */
  predicate OccursAt(s: string, value: string, i: int) {
    0 <= i && i + |value| <= |s| && s[i..i + |value|] == value
  }

  /** `string.Contains(value)`: ordinal, so the empty string occurs in every string. */
  function Contains(s: string, value: string): (b: bool)
    ensures b <==> exists i :: OccursAt(s, value, i)
    ensures |value| > |s| ==> !b
  {
    exists i | 0 <= i <= |s| - |value| :: OccursAt(s, value, i)
  }

  /** The first ordinal occurrence of `value` at or after `start`, or -1. */
  function IndexOfFrom(s: string, value: string, start: nat): (r: int)
    ensures r == -1 || (start <= r && OccursAt(s, value, r))
    ensures r >= 0 ==> forall i | start <= i < r :: !OccursAt(s, value, i)
    ensures r == -1 ==> forall i | start <= i :: !OccursAt(s, value, i)
    decreases |s| - start
  {
    if start + |value| > |s| then -1
    else if s[start..start + |value|] == value then start
    else IndexOfFrom(s, value, start + 1)
  }

  /**
    `s.IndexOf(value, StringComparison.Ordinal)`: the index of the first
    occurrence, non-negative exactly when `s` contains `value`.
  */
  function OrdinalIndexOf(s: string, value: string): (r: int)
    ensures r == -1 || 0 <= r <= |s| - |value|
    ensures r >= 0 <==> Contains(s, value)
    ensures r >= 0 ==> OccursAt(s, value, r) && forall i | 0 <= i < r :: !OccursAt(s, value, i)
  {
    IndexOfFrom(s, value, 0)
  }

  /** An occurrence survives putting text before or after the string. */
  lemma {:induction false} ContainsExtends(a: string, b: string, value: string)
    requires Contains(a, value)
    ensures Contains(a + b, value) && Contains(b + a, value)
  {
    var i :| 0 <= i <= |a| - |value| && OccursAt(a, value, i);
    assert (a + b)[i..i + |value|] == a[i..i + |value|];
    assert OccursAt(a + b, value, i);
    assert (b + a)[|b| + i..|b| + i + |value|] == a[i..i + |value|];
    assert OccursAt(b + a, value, |b| + i);
  }

  /** Every string contains the empty string and itself. */
  lemma ContainsBasics(s: string)
    ensures Contains(s, "") && Contains(s, s)
  {
    assert s[0..0] == "";
    assert OccursAt(s, "", 0);
    assert s[0..|s|] == s;
    assert OccursAt(s, s, 0);
  }

  // ---------------------------------------------------------------------------
  // Strings

  /**
    `parameter.MustNotContain(value, parameterName, message)`: `parameter` is
    checked for `null` first (named `parameterName`), then `value` (named
    "value", with the caller's message); an ordinal occurrence of `value` raises
    a SubstringException, otherwise `parameter` is returned unchanged.
  */
  function StringMustNotContain(parameter: Option<string>, value: Option<string>, parameterName: Option<string> := None, message: Option<string> := None): (r: Checked<string>)
    ensures r.Ok? <==> parameter.Some? && value.Some? && !Contains(parameter.value, value.value)
    ensures r.Ok? ==> r.value == parameter.value
    ensures parameter.None? ==> r == Fail(Fault(ArgumentNullException, parameterName, message))
    ensures parameter.Some? && value.None? ==> r == Fail(Fault(ArgumentNullException, Some("value"), message))
    ensures parameter.Some? && value.Some? && Contains(parameter.value, value.value) ==>
      r == Fail(Fault(SubstringException, parameterName, message))
  {
    match (parameter, value)
    case (None, _) => Fail(NullFault(parameterName, message))
    case (Some(_), None) => Fail(NullFault(Some("value"), message))
    case (Some(s), Some(v)) =>
      if Contains(s, v) then Fail(Fault(SubstringException, parameterName, message)) else Ok(s)
  }

  /**
    `parameter.MustNotContain(value, exceptionFactory)`: the factory gets
    `(parameter, value)` when either is `null` or `value` occurs.
  */
  function StringMustNotContainCustom(parameter: Option<string>, value: Option<string>): (r: Guarded<string, (Option<string>, Option<string>)>)
    ensures r.Passed? <==> parameter.Some? && value.Some? && !Contains(parameter.value, value.value)
    ensures r.Passed? ==> r.value == parameter.value
    ensures r.Custom? ==> r.args == (parameter, value)
  {
    if parameter.None? || value.None? || Contains(parameter.value, value.value) then Custom((parameter, value))
    else Passed(parameter.value)
  }

  /**
    `System.StringComparison`. A C# enum can hold any value of its underlying
    type; `Undefined` stands for every value outside the six named ones.
  */
  datatype StringComparison =
    | CurrentCulture
    | CurrentCultureIgnoreCase
    | InvariantCulture
    | InvariantCultureIgnoreCase
    | Ordinal
    | OrdinalIgnoreCase
    | Undefined

  /**
    What `string.IndexOf(value, comparisonType)` raises for a `comparisonType`
    that is not a defined `StringComparison`: an ArgumentException naming
    "comparisonType" (its .NET message text is not modelled).
  */
  function UndefinedComparisonFault(): (f: Fault)
    ensures f.kind == ArgumentException && f.paramName == Some("comparisonType") && f.message.None?
  {
    Fault(ArgumentException, Some("comparisonType"), None)
  }

  /**
    `string.IndexOf(value, comparisonType)` for a defined `comparisonType`: the
    ordinal search for `Ordinal`, the parameter `indexOf` for the five
    culture-sensitive or case-insensitive comparisons.
  */
  function IndexOfWith(s: string, value: string, comparisonType: StringComparison, indexOf: (string, string, StringComparison) -> int): (r: int)
    requires !comparisonType.Undefined?
    ensures comparisonType == Ordinal ==> (r >= 0 <==> Contains(s, value))
    ensures comparisonType == Ordinal && r >= 0 ==> OccursAt(s, value, r) && forall i | 0 <= i < r :: !OccursAt(s, value, i)
    ensures comparisonType != Ordinal ==> r == indexOf(s, value, comparisonType)
  {
    if comparisonType == Ordinal then OrdinalIndexOf(s, value) else indexOf(s, value, comparisonType)
  }

  /**
    `parameter.MustNotContain(value, comparisonType, parameterName, message)`:
    the same null checks as the ordinal overload; then `IndexOf` raises for an
    undefined `comparisonType`, and otherwise a hit is `IndexOfWith(parameter,
    value, comparisonType, indexOf) >= 0`.
  */
  function StringMustNotContainWith(
    parameter: Option<string>, value: Option<string>, comparisonType: StringComparison,
    indexOf: (string, string, StringComparison) -> int,
    parameterName: Option<string> := None, message: Option<string> := None): (r: Checked<string>)
    ensures r.Ok? <==>
      parameter.Some? && value.Some? && !comparisonType.Undefined? && IndexOfWith(parameter.value, value.value, comparisonType, indexOf) < 0
    ensures r.Ok? ==> r.value == parameter.value
    ensures parameter.None? ==> r == Fail(Fault(ArgumentNullException, parameterName, message))
    ensures parameter.Some? && value.None? ==> r == Fail(Fault(ArgumentNullException, Some("value"), message))
    ensures parameter.Some? && value.Some? && comparisonType.Undefined? ==> r == Fail(UndefinedComparisonFault())
    ensures parameter.Some? && value.Some? && !comparisonType.Undefined? && IndexOfWith(parameter.value, value.value, comparisonType, indexOf) >= 0 ==>
      r == Fail(Fault(SubstringException, parameterName, message))
  {
    match (parameter, value)
    case (None, _) => Fail(NullFault(parameterName, message))
    case (Some(_), None) => Fail(NullFault(Some("value"), message))
    case (Some(s), Some(v)) =>
      if comparisonType.Undefined? then Fail(UndefinedComparisonFault())
      else if IndexOfWith(s, v, comparisonType, indexOf) >= 0 then Fail(Fault(SubstringException, parameterName, message))
      else Ok(s)
  }

  /**
    `parameter.MustNotContain(value, comparisonType, exceptionFactory)`: the
    factory gets `(parameter, value, comparisonType)` when either string is
    `null` or `value` is found. The null tests come first, so a `null` reaches
    the factory whatever `comparisonType` is; for two strings and an undefined
    `comparisonType`, `IndexOf` raises its ArgumentException (`Fail`) and the
    factory is not called. `Ok` wraps the outcome of the check proper.
  */
  function StringMustNotContainWithCustom(
    parameter: Option<string>, value: Option<string>, comparisonType: StringComparison,
    indexOf: (string, string, StringComparison) -> int): (r: Checked<Guarded<string, (Option<string>, Option<string>, StringComparison)>>)
    ensures r.Fail? <==> parameter.Some? && value.Some? && comparisonType.Undefined?
    ensures r.Fail? ==> r.fault == UndefinedComparisonFault()
    ensures r.Ok? && r.value.Passed? <==>
      parameter.Some? && value.Some? && !comparisonType.Undefined? && IndexOfWith(parameter.value, value.value, comparisonType, indexOf) < 0
    ensures r.Ok? && r.value.Passed? ==> r.value.value == parameter.value
    ensures r.Ok? && r.value.Custom? ==> r.value.args == (parameter, value, comparisonType)
  {
    if parameter.None? || value.None? then Ok(Custom((parameter, value, comparisonType)))
    else if comparisonType.Undefined? then Fail(UndefinedComparisonFault())
    else if IndexOfWith(parameter.value, value.value, comparisonType, indexOf) >= 0 then Ok(Custom((parameter, value, comparisonType)))
    else Ok(Passed(parameter.value))
  }

  /**
    With `StringComparison.Ordinal`, the `StringComparison` overloads decide
    exactly as the plain ones, whatever `indexOf` answers: same result, same
    exception, same factory call.
  */
  lemma OrdinalComparisonAgrees(parameter: Option<string>, value: Option<string>, indexOf: (string, string, StringComparison) -> int, parameterName: Option<string>, message: Option<string>)
    ensures StringMustNotContainWith(parameter, value, Ordinal, indexOf, parameterName, message) ==
            StringMustNotContain(parameter, value, parameterName, message)
    ensures StringMustNotContainWithCustom(parameter, value, Ordinal, indexOf).Ok?
    ensures StringMustNotContainWithCustom(parameter, value, Ordinal, indexOf).value.Passed? <==>
            StringMustNotContainCustom(parameter, value).Passed?
  {
  }

  /** The ordinal overload finds "b" in "abc" whatever the culture-sensitive search would answer. */
  lemma OrdinalComparisonExample(indexOf: (string, string, StringComparison) -> int)
    ensures StringMustNotContainWith(Some("abc"), Some("b"), Ordinal, indexOf, Some("s")) == Fail(Fault(SubstringException, Some("s"), None))
    ensures StringMustNotContainWith(Some("abc"), Some("d"), Ordinal, indexOf) == Ok("abc")
  {
    assert OccursAt("abc", "b", 1);
  }

  /**
    An undefined `comparisonType` makes both overloads raise the
    ArgumentException of `IndexOf` for any two strings, whatever `indexOf`
    answers; with a `null` string the null handling wins.
  */
  lemma UndefinedComparisonRaises(s: string, value: string, indexOf: (string, string, StringComparison) -> int, parameterName: Option<string>, message: Option<string>)
    ensures StringMustNotContainWith(Some(s), Some(value), Undefined, indexOf, parameterName, message) == Fail(UndefinedComparisonFault())
    ensures StringMustNotContainWithCustom(Some(s), Some(value), Undefined, indexOf) == Fail(UndefinedComparisonFault())
    ensures StringMustNotContainWith(None, Some(value), Undefined, indexOf, parameterName, message) ==
            Fail(Fault(ArgumentNullException, parameterName, message))
    ensures StringMustNotContainWithCustom(Some(s), None, Undefined, indexOf) == Ok(Custom((Some(s), None, Undefined)))
  {
  }

  /** The empty value occurs in every string, so it always fails; a value longer than the string always passes. */
  lemma SubstringEdgeCases(s: string, value: string, parameterName: Option<string>, message: Option<string>)
    ensures StringMustNotContain(Some(s), Some(""), parameterName, message) == Fail(Fault(SubstringException, parameterName, message))
    ensures StringMustNotContain(Some(s), Some(s), parameterName, message).Fail?
    ensures |value| > |s| ==> StringMustNotContain(Some(s), Some(value), parameterName, message) == Ok(s)
  {
    ContainsBasics(s);
  }

  /** A string that fails the check keeps failing when text is added around it. */
  lemma SubstringFailureExtends(a: string, b: string, value: string)
    requires StringMustNotContain(Some(a), Some(value)).Fail?
    ensures StringMustNotContain(Some(a + b), Some(value)).Fail? && StringMustNotContain(Some(b + a), Some(value)).Fail?
  {
    ContainsExtends(a, b, value);
  }

  /** Both reporting paths of each containment check decide alike. */
  lemma ContainmentPathsAgree<T>(items: Option<seq<T>>, item: T, parameter: Option<string>, value: Option<string>, parameterName: Option<string>, message: Option<string>)
    ensures CollectionMustNotContain(items, item, parameterName, message).Ok? <==> CollectionMustNotContainCustom(items, item).Passed?
    ensures StringMustNotContain(parameter, value, parameterName, message).Ok? <==> StringMustNotContainCustom(parameter, value).Passed?
  {
  }
}
