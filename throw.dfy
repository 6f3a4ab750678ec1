/**
  The exception factory `Throw.MustBeGreaterThan`: it never returns (here: its
  result is the exception it raises, never a value) and builds an
  ArgumentOutOfRangeException from the parameter name and either the caller's
  message or a templated one.
*/
module Throw {
  import opened Guards
  import opened Formatting

  /** `parameterName ?? "The value"`: the subject of a templated message. */
  function NameOrTheValue(parameterName: Option<string>): (s: string)
    ensures parameterName.Some? ==> s == parameterName.value
    ensures parameterName.None? ==> s == "The value"
  {
    match parameterName
    case Some(name) => name
    case None => "The value"
  }

  /** `"{name} must be greater than {boundary}, but it actually is {parameter}."` */
  function GreaterThanMessage(parameterName: Option<string>, boundary: int, parameter: int): (m: string)
    ensures |m| > |NameOrTheValue(parameterName)| && m[..|NameOrTheValue(parameterName)|] == NameOrTheValue(parameterName)
    ensures |m| > |ShowInt(parameter)| && m[|m| - |ShowInt(parameter)| - 1..] == ShowInt(parameter) + "."
  {
    MessageAffixes(NameOrTheValue(parameterName), " must be greater than ", ShowInt(boundary), ", but it actually is ", ShowInt(parameter), ".");
    NameOrTheValue(parameterName) + " must be greater than " + ShowInt(boundary) +
    ", but it actually is " + ShowInt(parameter) + "."
  }

  /** For one parameter name, the templated message tells the boundary and the value apart from all others. */
  lemma GreaterThanMessageDetermines(parameterName: Option<string>, boundary: int, parameter: int, boundary': int, parameter': int)
    requires GreaterThanMessage(parameterName, boundary, parameter) == GreaterThanMessage(parameterName, boundary', parameter')
    ensures boundary == boundary' && parameter == parameter'
  {
    TwoValueMessageDetermines(NameOrTheValue(parameterName) + " must be greater than ", ", but it actually is ",
      boundary, parameter, boundary', parameter');
  }

  /**
    `Throw.MustBeGreaterThan(parameter, boundary, parameterName, message)`: the
    exception names `parameterName`; its message is `message` when one is given
    and the template otherwise.
  */
  function MustBeGreaterThan(parameter: int, boundary: int, parameterName: Option<string> := None, message: Option<string> := None): (f: Fault)
    ensures f.kind == ArgumentOutOfRangeException
    ensures f.paramName == parameterName
    ensures message.Some? ==> f.message == message
    ensures message.None? ==> f.message == Some(GreaterThanMessage(parameterName, boundary, parameter))
  {
    var text := match message
      case Some(m) => m
      case None => GreaterThanMessage(parameterName, boundary, parameter);
    Fault(ArgumentOutOfRangeException, parameterName, Some(text))
  }

  /** The templated message when the caller names the parameter and gives no message. */
  lemma NamedGreaterThanExample()
    ensures MustBeGreaterThan(1, 2, Some("first")).message ==
      Some("first" + " must be greater than " + "2" + ", but it actually is " + "1" + ".")
  {
    assert ShowInt(1) == "1" && ShowInt(2) == "2";
  }

  /** The templated message when neither a name nor a message is given. */
  lemma AnonymousGreaterThanExample()
    ensures MustBeGreaterThan(-1, -1).message ==
      Some("The value" + " must be greater than " + "-1" + ", but it actually is " + "-1" + ".")
  {
    assert ShowInt(-1) == "-1";
  }
}
