/**
  `Check.MustNotBeOneOf`: a value must not be one of a list of forbidden items.
  `IsOneOf` is membership under the default equality.
*/
module MustNotBeOneOf {
  import opened Guards
  import MustNotContain

  /** `parameter.IsOneOf(items)`: some item equals `parameter`. */
  function IsOneOf<T(==)>(parameter: T, items: seq<T>): (b: bool)
    ensures b <==> exists i | 0 <= i < |items| :: items[i] == parameter
    ensures items == [] ==> !b
  {
    parameter in items
  }

  /**
    `parameter.MustNotBeOneOf(items, parameterName, message)`: `items` is checked
    for `null` first, the exception naming "items" and carrying the caller's
    message; a value found among the items raises a ValueIsOneOfException named
    `parameterName`; any other value is returned unchanged.
  */
  function MustNotBeOneOf<T(==)>(parameter: T, items: Option<seq<T>>, parameterName: Option<string> := None, message: Option<string> := None): (r: Checked<T>)
    ensures r.Ok? <==> items.Some? && forall i | 0 <= i < |items.value| :: items.value[i] != parameter
    ensures r.Ok? ==> r.value == parameter
    ensures items.None? ==> r == Fail(Fault(ArgumentNullException, Some("items"), message))
    ensures items.Some? && parameter in items.value ==> r == Fail(Fault(ValueIsOneOfException, parameterName, message))
  {
    match items
    case None => Fail(NullFault(Some("items"), message))
    case Some(xs) =>
      if IsOneOf(parameter, xs) then Fail(Fault(ValueIsOneOfException, parameterName, message)) else Ok(parameter)
  }

  /**
    `parameter.MustNotBeOneOf(items, exceptionFactory)`: the factory gets
    `(parameter, items)` when `items` is `null` or holds `parameter`, and is not
    called otherwise.
  */
  function MustNotBeOneOfCustom<T(==)>(parameter: T, items: Option<seq<T>>): (r: Guarded<T, (T, Option<seq<T>>)>)
    ensures r.Passed? <==> items.Some? && parameter !in items.value
    ensures r.Passed? ==> r.value == parameter
    ensures r.Custom? ==> r.args == (parameter, items)
  {
    if items.None? || IsOneOf(parameter, items.value) then Custom((parameter, items)) else Passed(parameter)
  }

  /**
    `x.MustNotBeOneOf(items)` and `items.MustNotContain(x)` ask the same
    question from the two sides: one passes exactly when the other does, and for
    a `null` list both report an ArgumentNullException.
  */
  lemma OneOfMirrorsContain<T>(x: T, items: Option<seq<T>>, message: Option<string>)
    ensures MustNotBeOneOf(x, items, None, message).Ok? <==> MustNotContain.CollectionMustNotContain(items, x, None, message).Ok?
    ensures items.None? ==>
      MustNotBeOneOf(x, items, None, message).fault.kind == ArgumentNullException == MustNotContain.CollectionMustNotContain(items, x, None, message).fault.kind
  {
  }

  /** Both reporting paths decide alike, and a value that passed passes again. */
  lemma OneOfPathsAgree<T>(x: T, items: Option<seq<T>>, parameterName: Option<string>, message: Option<string>)
    ensures MustNotBeOneOf(x, items, parameterName, message).Ok? <==> MustNotBeOneOfCustom(x, items).Passed?
    ensures var r := MustNotBeOneOf(x, items, parameterName, message);
      r.Ok? ==> MustNotBeOneOf(r.value, items, parameterName, message) == r
  {
  }

  /** An empty list forbids nothing; a list naming the value anywhere always forbids it. */
  lemma OneOfEdgeCases<T>(x: T, items: seq<T>, parameterName: Option<string>, message: Option<string>)
    ensures MustNotBeOneOf(x, Some([]), parameterName, message) == Ok(x)
    ensures x in items ==> MustNotBeOneOf(x, Some(items), parameterName, message) == Fail(Fault(ValueIsOneOfException, parameterName, message))
  {
  }
}
