/** Optional values and the exceptions the converter pipeline raises or catches. */
module Wrappers {

  datatype Option<T> = None | Some(value: T)
  {
    function UnwrapOr(default: T): T
    {
      match this
      case None => default
      case Some(v) => v
    }
  }

  /** The exception classes the modelled code raises, catches or lets propagate. */
  datatype Exception =
    | ValueError(message: string)
    | FileNotFoundError(message: string)
    | UnsupportedFormatException(message: string)
    | FileConversionException(message: string)
    | MissingDependencyException(message: string)
    | UnicodeDecodeError
    | LookupError(encoding: string)
    | TypeError(message: string)
    | RegexError(message: string)
    | ImportError(message: string)
    | OSError(message: string)
    | AttributeError(message: string)
    | Failure(message: string)

  /** What a Python call does: return a value or raise. */
  datatype Outcome<T> = Returned(value: T) | Raised(error: Exception)
}
