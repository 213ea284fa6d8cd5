/** Option and Result types for the failures the Python code raises as exceptions. */
module Wrappers {

  datatype Option<+T> = None | Some(value: T)

  /** The exceptions the modelled functions can raise. */
  datatype Error =
    | InvalidMode              // ValueError("Invalid mode") from the transcript view builder
    | KeyError(key: string)    // a prompt template missing from the prompts mapping
    | IndexError               // a list indexed past its end
    | FormatValueError         // str.format on a template with a single '{' or '}'
    | UnsupportedField         // a str.format field other than "{}", outside this model

  datatype Result<+R> = Success(value: R) | Failure(error: Error) {

    predicate IsFailure() {
      Failure?
    }

    function PropagateFailure<U>(): Result<U>
      requires Failure?
    {
      Failure(error)
    }

    function Extract(): R
      requires Success?
    {
      value
    }
  }
}
