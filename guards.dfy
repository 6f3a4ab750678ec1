/**
  Shared vocabulary of the guard-clause model.

  Every check of the library has two reporting paths. The default path returns
  the argument or raises a categorised exception that carries the parameter name
  and a message; here that is `Checked<T>`. The custom path calls a
  caller-supplied factory with the checked arguments and raises whatever it
  returns; here that is `Guarded<T, A>`, whose `Custom` case records the
  arguments handed to the factory (the factory is called exactly when that case
  is produced, and never otherwise).
*/
module Guards {

  /** A C# reference or nullable value: `None` is `null`. */
  datatype Option<T> = None | Some(value: T)

  /** The exception classes the default path raises. */
  datatype ExceptionKind =
    | ArgumentNullException
    | ArgumentOutOfRangeException
    | StringLengthException
    | StringException
    | ExistingItemException
    | SubstringException
    | ValueIsOneOfException
    | InvalidCollectionCountException
    | ArgumentException

  /**
    The exception raised on the default path. `paramName` is the name the
    exception is constructed with. `message` is the message text when this
    model knows it: the caller's message, or the text of a template that is
    part of the model; `None` means the caller gave no message and the
    exception gets its helper's default text.
  */
  datatype Fault = Fault(kind: ExceptionKind, paramName: Option<string>, message: Option<string>)

  /** Outcome of a default-path check: the argument unchanged, or the raised exception. */
  datatype Checked<T> = Ok(value: T) | Fail(fault: Fault)

  /** Outcome of a custom-path check: the argument unchanged, or the factory called with `args`. */
  datatype Guarded<T, A> = Passed(value: T) | Custom(args: A)

  /**
    `parameter.MustNotBeNull(parameterName, message)`: the ArgumentNullException
    every default-path check raises for a `null` argument, before it looks at
    the argument. It carries the name and the message it is handed unchanged.
  */
  function NullFault(parameterName: Option<string>, message: Option<string>): (f: Fault)
    ensures f.kind == ArgumentNullException
    ensures f.paramName == parameterName && f.message == message
  {
    Fault(ArgumentNullException, parameterName, message)
  }
}
