/** Option and Result values, and the exceptions the scrapers raise or catch. */
module Wrappers {

  datatype Option<+T> = None | Some(value: T) {
    function GetOr(default: T): T {
      match this
      case Some(v) => v
      case None => default
    }
  }

  /** The Python exceptions that can leave a scraper, or that a scraper catches. */
  datatype Error =
    | NoDataForPeriod(period: string)  // the requested session or term is not covered
    | KeyError(key: string)            // a dict lookup of a missing key
    | IndexError(what: string)         // an index into an empty or too short list
    | AttributeError(what: string)     // a method called on None (failed regex match, missing text)
    | ValueError(what: string)         // int() or strptime() of malformed text
    | SelectorError(what: string)      // a selector that matched nothing
    | UnicodeEncodeError(text: string) // a `unicode` with a character outside ASCII made into a `str`

  datatype Result<+T> = Ok(value: T) | Err(error: Error) {
    predicate IsFailure() {
      Err?
    }

    function PropagateFailure<U>(): Result<U>
      requires Err?
    {
      Err(error)
    }

    function Extract(): T
      requires Ok?
    {
      value
    }
  }
}
