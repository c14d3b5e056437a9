/** The absent-or-present value used wherever the page code tests for a
    missing element, a missing free slot or an undecodable string. */
module Optional {

  datatype Option<+T> = None | Some(value: T)
}
