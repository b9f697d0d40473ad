/** The optional value used wherever the source has "maybe absent" data
    (a response header that may not have been sent, a request header that
    may not have been added). */
module Wrappers {

  datatype Option<+T> = None | Some(value: T)
}
