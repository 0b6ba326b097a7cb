/** Values that stand for Ruby's `nil` and for Ruby exceptions. */
module Errors {

  /** A value that may be `nil`. */
  datatype Option<+T> = None | Some(value: T)

  /**
   * The outcome of a Ruby call that may raise: either it returns a value
   * normally, or it raises an exception whose message is kept. Every
   * exception the modelled code raises or rescues is a `StandardError`,
   * so the message is all that callers ever look at.
   */
  datatype Outcome<+T> = Normal(value: T) | Raised(message: string)
}
