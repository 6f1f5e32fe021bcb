/** Option and Result values shared by the whole model, and the kinds of
    failure the scraper raises. Every Python exception that the modelled code
    can raise becomes an `Err` carrying one of these kinds. */
module Wrappers {

  datatype Option<+T> = None | Some(value: T)

  /** The exceptions of the scraper, by cause. */
  datatype Error =
    | DuplicatedStationCode   // the metadata search did not find exactly one record
    | UnknownIco              // 'ico' is neither M nor H
    | UnknownEstado           // 'estado' is none of DIFERIDO, REAL, AUTOMATICA
    | MissingSchema           // the station class is not a key of the column table
    | NoAltitude              // no cell with "msnm": `alt` is never bound
    | FetchFailed             // the HTTP request or the HTML parse failed
    | IndexOutOfRange         // a list index past the end
    | ColumnMismatch          // a frame built or renamed with the wrong column count
    | UnparsableValue         // a date, hour or integer that does not parse
    | UnknownStationClass     // complete_monthly_data on an unknown suffix
    | EmptyData               // mode() of an empty column
    | LengthMismatch          // a column assigned with the wrong length
    | MissingColumn           // attribute access to a column the frame lacks
    | OutOfBoundsYear         // a date outside the years a pandas timestamp can hold

  datatype Result<+T> = Ok(value: T) | Err(error: Error) {
    predicate IsFailure() { Err? }

    function PropagateFailure<U>(): Result<U>
      requires Err?
    {
      Err(error)
    }

    function Extract(): T
      requires Ok?
    {
      value
    }
  }
}
