/**
 * `ILPException`: an error code and a message.  The legacy copy in the `ilp`
 * tree has the same constants (except `ERROR_DUPLICATE_NAME`), the same four
 * constructors and the same `findErrorText`, so one module models both.
 */
module ILPErrors {
  import opened Wrappers

  const ERROR_UNSPECIFIED: int := 1
  const ERROR_NO_HANDLES: int := 2
  const ERROR_RESOURCE_DISPOSED: int := 3
  const ERROR_DUPLICATE_NAME: int := 4

  /** `findErrorText(code)`: the fixed description of a code. */
  function FindErrorText(code: int): (r: string)
    ensures code == ERROR_UNSPECIFIED ==> r == "Unspecified error"
    ensures code == ERROR_NO_HANDLES ==> r == "No more handles"
    ensures code == ERROR_RESOURCE_DISPOSED ==> r == "Resource is disposed"
    ensures r == "Unknown error" <==>
      code !in {ERROR_UNSPECIFIED, ERROR_NO_HANDLES, ERROR_RESOURCE_DISPOSED}
  {
    if code == ERROR_UNSPECIFIED then "Unspecified error"
    else if code == ERROR_NO_HANDLES then "No more handles"
    else if code == ERROR_RESOURCE_DISPOSED then "Resource is disposed"
    else "Unknown error"
  }

  /** `new ILPException(code, message)`. */
  function WithCodeAndMessage(code: int, message: string): (e: Fault)
    ensures e.ILP? && e.code == code && e.message == message
  {
    ILP(code, message)
  }

  /** `new ILPException(code)`: the message is the code's description. */
  function WithCode(code: int): (e: Fault)
    ensures e.ILP? && e.code == code && e.message == FindErrorText(code)
  {
    WithCodeAndMessage(code, FindErrorText(code))
  }

  /** `new ILPException(message)`: an unspecified error with that message. */
  function WithMessage(message: string): (e: Fault)
    ensures e.ILP? && e.code == ERROR_UNSPECIFIED && e.message == message
  {
    WithCodeAndMessage(ERROR_UNSPECIFIED, message)
  }

  /** `new ILPException()`: an unspecified error with its description. */
  function Unspecified(): (e: Fault)
    ensures e.ILP? && e.code == ERROR_UNSPECIFIED
    ensures e.message == "Unspecified error"
  {
    WithCode(ERROR_UNSPECIFIED)
  }

  /** The error every access to a disposed entity or problem throws. */
  function Disposed(): (e: Fault)
    ensures e == ILP(ERROR_RESOURCE_DISPOSED, "Resource is disposed")
  {
    WithCode(ERROR_RESOURCE_DISPOSED)
  }

  /** The four codes are distinct and run from 1 to 4. */
  lemma CodesDistinct()
    ensures [ERROR_UNSPECIFIED, ERROR_NO_HANDLES, ERROR_RESOURCE_DISPOSED, ERROR_DUPLICATE_NAME]
         == [1, 2, 3, 4]
  {
  }

  /** A duplicate-name error carries a message of its own: its code has no fixed text. */
  lemma DuplicateNameHasNoText()
    ensures FindErrorText(ERROR_DUPLICATE_NAME) == "Unknown error"
  {
  }
}
