/** Failure-carrying results shared by the modules of this project. The
    JavaScript/TypeScript sources signal failure with `undefined` or with a
    thrown `Error`; here both become values. */
module Outcomes {

  /** `undefined` versus a present value. */
  datatype Option<T> = None | Some(value: T)

  /** A value, or the message of the error the source would have thrown. */
  datatype Result<T> = Ok(value: T) | Err(msg: string)

  /** Completion without a value, or the message of the error thrown. */
  datatype Outcome = Pass | Fail(msg: string)
}
