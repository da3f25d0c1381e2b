/** Option and Result, used for the page's error paths (its alert dialogs). */
module Wrappers {

  datatype Option<+T> = None | Some(value: T)

  datatype Result<+R, +E> = Ok(value: R) | Err(error: E)

  /** The notices the page raises with `alert`, one per failure path of a handler. */
  datatype Notice =
    | EnterBulkKeywords     // bulk text is blank after trimming
    | NoValidKeywordsFound  // bulk text parsed to no keyword
    | FillBusinessFields    // a business field is the empty string
    | AddAKeyword           // no keyword is non-blank
    | NoLinksToDownload     // CSV export with no generated links
}
