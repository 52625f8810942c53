/**
 * Option and Result, plus the vocabulary the rest of the model uses for
 * Python's dynamic typing and for the exceptions the library raises.
 */
module Wrappers {

  datatype Option<T> = None | Some(value: T)

  /** The exception classes the modelled code raises or lets escape. */
  datatype Error =
    | TypeError
    | ValueError
    | KeyError
    | AttributeError
    | IndexError
    | AssertionError
    | SyntaxError
    | NotImplementedError
    | OverflowError
    | RecursionError
    | EncodeError
    | DecodeError
    | AlreadyExist
    | InvalidOperation

  datatype Result<T> = Ok(value: T) | Err(error: Error)

  /**
   * An argument whose class the source tests with `isinstance`: either an
   * instance of the expected class or a value of some other class.
   */
  datatype Arg<T> = Instance(value: T) | OtherType

  /**
   * A Python value as the codecs see it before their type checks.  `bool`
   * is kept apart from `int`, although Python treats it as an integral
   * subclass; lists and tuples are both `PySeq`.
   */
  datatype Value =
    | PyNone
    | PyBool(b: bool)
    | PyInt(i: int)
    | PyStr(s: string)
    | PySeq(items: seq<Value>)
    | PyOther
}
