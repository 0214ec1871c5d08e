/** The optional value the parser returns for "matched" / "no match". */
module Wrappers {

  /** `Maybe<T>` of the parser: either no match, or a parsed fragment. */
  datatype Maybe<+T> = None | Some(value: T)

  /** What a cursor-based parser leaves behind: its optional fragment, and the
      cursor after the call (the remaining, unparsed text). */
  datatype Parsed<+T> = Parsed(result: Maybe<T>, rest: string)
}
