/** Option and Result: how the model states "no value" and "the source raised". */
module Wrappers {

  datatype Option<+T> = None | Some(value: T)
  {
    function GetOr(default: T): T
    {
      match this
      case Some(v) => v
      case None => default
    }
  }

  /** An exception raised by the source, with the message it carries. */
  datatype Error =
    | ParseError(line: string)     // LogShortStatParserError
    | IndexError(what: string)     // a tuple or list index that does not exist
    | ValueError(what: string)     // int() of a non-number, unpacking the wrong number of values
    | KeyError(key: string)        // a dictionary key that is not there
    | TypeError(what: string)      // unpacking None

  datatype Result<+T> = Ok(value: T) | Err(error: Error)
}
