/** Error kinds raised by the harness and by the remote clients it drives,
    and the small result types used to carry them. */
module Errors {

  datatype Option<+T> = None | Some(value: T)

  /** The failures a call can end with. The first three are the kinds the
      remote clients raise; the others are raised by the harness itself. */
  datatype Error =
    | NotFound                        // lib_exc.NotFound: the resource is absent
    | Conflict(msg: string)           // lib_exc.Conflict, with its message text
    | Other(msg: string)              // any other failure of a remote call
    | AssertionFailed(msg: string)    // a failed self.assert* check
    | ValueError(text: string)        // long()/int() of a malformed string
    | KeyError(key: string)           // a missing dictionary key
    | IndexError                      // a list index out of range
    | TypeError(msg: string)          // calling something that is not callable
    | Raised(msg: string)             // a bare `raise Exception(msg)`
    | NodeTimeout(node: string, attr: string, targets: seq<Option<string>>)
    | ServerUnreachable
    | InvalidConfiguration

  /** Outcome of a call whose value is not used: it returned, or it raised. */
  datatype Outcome = Pass | Fail(error: Error)

  datatype Result<+T> = Ok(value: T) | Err(error: Error)

  /** A failure as a list of zero or one errors (teardown aggregates errors). */
  function Failures(o: Outcome): seq<Error> {
    if o.Pass? then [] else [o.error]
  }
  /** Concatenation regroups freely. */
  lemma AppendAssoc<T>(a: seq<T>, b: seq<T>, c: seq<T>)
    ensures a + (b + c) == a + b + c
  {
  }
}
