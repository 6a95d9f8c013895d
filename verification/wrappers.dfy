/** Optional values and results with an error, used for the source's nil
    pointers and its `(value, error)` returns. */
module Wrappers {

  datatype Option<+T> = None | Some(value: T)

  datatype Result<+T, +E> = Success(value: T) | Failure(error: E)
}

/** The failures the extraction core reports. The source builds them with
    `fmt.Errorf`; only their kind is modelled, not the message text. */
module Errors {

  datatype Error =
    | AttributeMissing(name: string)  // getAttributeByName found no attribute with that key
    | TableNotFound                   // the data table pointer is nil
    | BirthDateMismatch               // no substring has the birth-date shape
    | DateParse                       // time.Parse rejected the captured date
    | HeightWeightMismatch            // no substring has the height-and-weight shape
    | NumberParse                     // strconv.Atoi rejected a captured number
    | FirstBashoMismatch              // no substring has the first-basho shape
}
