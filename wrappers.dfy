/** The result shapes the broker's operations return. */
module Wrappers {

  datatype Option<+T> = None | Some(value: T)

  /** `Result<T, ()>`: the single broker error carries no detail. */
  datatype Result<+T> = Ok(value: T) | Err

  /** `std::task::Poll`: the outcome of polling a future once. */
  datatype Poll<+T> = Ready(value: T) | Pending
}
