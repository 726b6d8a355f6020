/**
 * The error kinds the calculator raises, and the Option / Result wrappers
 * that stand for C++ null pointers and thrown exceptions.
 */
module Errors {

  /** One tag per exception class; the messages are not modelled. */
  datatype Error =
    | SyntaxError        // ASTSyntaxError
    | ValueError         // ASTValueError
    | TypeError          // ASTTypeError
    | InvalidOperation   // ASTInvalidOperation
    | NotFound           // ASTNotFound
    | Generic            // a plain ASTException
    | OutOfRange         // std::out_of_range thrown by vector::at

  datatype Option<+T> = None | Some(value: T)

  /** A value, or the exception that was thrown instead. */
  datatype Result<+T> = Ok(value: T) | Err(error: Error)

  /** The outcome of an operation that returns nothing (a C++ `void`). */
  datatype Outcome = Pass | Fail(error: Error)
}
