/** The outcomes of the scraper's operations: an optional value for the
    functions that return `None`, and a result carrying either a value or
    the exception the source raises. */
module Results {

  datatype Option<T> = None | Some(value: T)

  /** The exceptions the modelled code raises. */
  datatype Error =
    /** `float()` rejected the number the date pattern captured (ValueError). */
    | NotANumber(literal: string)
    /** No link inside the `top-nav` block of a detail page. */
    | NoSimfileName
    /** No link on a detail page whose stripped text is `ZIP`. */
    | NoZipLink
    /** An anchor with a simfile element id has no `href` (KeyError). */
    | MissingHref
    /** An anchor with a simfile element id whose `href` is also a simfile
        link is not inside a table row (AttributeError on `None.find_all`). */
    | NoEnclosingRow
    /** The first listed row has no cells, so the date variable was never
        assigned (NameError). */
    | DateUnbound
    /** A row with cells none of which holds a relative date. */
    | NoDateFound(simfileId: string, simfileName: string)

  datatype Result<T> = Ok(value: T) | Err(error: Error)
}
