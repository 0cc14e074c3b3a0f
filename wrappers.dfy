/** Option and Result types for the monitor's decoders and handlers, and the
    error kinds the handlers surface as strings. */
module Wrappers {

  datatype Option<+T> = None | Some(value: T)

  /** Why a handler call did not produce a payload. */
  datatype Error =
    | SpawnFailed(message: string)  // the tool could not be started; its OS error text
    | ToolFailed                    // the tool exited with a failure status
    | NoSuchProcess                 // the target process is gone
    | NmtDisabled                   // native memory tracking is not enabled on the target
    | Panic                          // an `unwrap` on a failed parse or a slice out of range

  datatype Result<+T> = Ok(value: T) | Err(error: Error) {
    predicate IsFailure() { Err? }

    function PropagateFailure<U>(): Result<U>
      requires Err?
    {
      Err(error)
    }

    function Extract(): T
      requires Ok?
    {
      value
    }
  }

  /** What running the external diagnostic tool produced: its standard output
      and whether it exited successfully, or the error that kept it from starting. */
  datatype ToolRun = Ran(stdout: string, success: bool) | NotStarted(message: string)
}
