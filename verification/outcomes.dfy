/** Failure-carrying values shared by the workbook writer, the date extractor and the
    archive pipeline. Every exception that ends `process_export` becomes an `Error`. */
module Outcomes {

  datatype Option<+T> = None | Some(value: T)

  /** The exceptions that end `process_export`, one constructor each. */
  datatype Error =
    | EmptyInput          // the CSV text holds no record at all: `next(reader)` raises
    | MissingExportMarker // no archive member is named `item_list_...`
    | DateParse           // no timestamp in the name, a 13-digit one, or an impossible date
    | Encoding            // a member's bytes are not valid UTF-8
    | CsvFormat           // the CSV reader rejected the decoded text

  datatype Result<+T> = Ok(value: T) | Err(error: Error)
}
