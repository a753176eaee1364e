/** The outcome of an operation whose source throws: the value it returns, or the error it raises. */
module Outcomes {

  datatype Result<T, E> = Ok(value: T) | Err(error: E)
}
