/** Failure-compatible result types shared by the whole model, and the exceptions the
    pipeline scripts can raise. Every exception aborts the run that raised it, so the
    model only needs to know which kind of failure ended it. */
module Wrappers {

  datatype Option<+T> = None | Some(value: T)

  /** The exceptions the scripts let escape, named after the Python exception that signals them. */
  datatype Error =
    | FileNotFound(name: string)   // ET.parse of a file that is not in the directory
    | KeyError(column: string)     // a DataFrame column that does not exist
    | ValueError                   // int(), strptime() or to_datetime() refusing its text, pivot refusing duplicates
    | TypeError                    // int() applied to a missing value
    | IndexError                   // tag.split('}')[1] on a tag without a namespace
    | AttributeError               // .text or .group() on a lookup that found nothing
    | SyntaxError                  // an ElementPath predicate whose value breaks its quoting

  datatype Result<+T> = Ok(value: T) | Err(error: Error)
}
