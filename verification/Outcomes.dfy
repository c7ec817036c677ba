/** The outcomes of operations that can return nothing, fail, or stop the program. */
module Outcomes {

  datatype Option<T> = None | Some(value: T)

  /** An operation that panics on some inputs. */
  datatype Decoded<T> = Panic | Value(value: T)

  /** An operation that returns an error on some inputs. */
  datatype Parsed<T> = Error | Ok(value: T)
}
