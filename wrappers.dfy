/** Option and Result values shared by the scraper modules. */
module Wrappers {

  /** A value that may be absent: Python's `None` or an actual value. */
  datatype Option<+T> = None | Some(value: T)

  /** The outcome of a computation that may raise. */
  datatype Result<+T, +E> = Success(value: T) | Failure(error: E)
}

/** The exceptions the scraper lets escape from link discovery. */
module Errors {

  datatype Error =
    /** A `wait_for_selector` on the page at `url` never saw its element. */
    | SelectorTimeout(url: string)
    /** `int(literal)` raised a ValueError because `literal` is not a decimal numeral. */
    | InvalidLiteral(literal: string)
}
