/** The optional value used where the allocator hands back a pointer that
    may be null (a peeked session, a taken session). */
module Wrappers {

  datatype Option<+T> = None | Some(value: T)
}
