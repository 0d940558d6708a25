/** The optional-value datatype shared by the extractor and the feed model. */
module Wrappers {

  datatype Option<+T> = None | Some(value: T)
}
