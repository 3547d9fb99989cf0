/** The absent-or-present value used wherever the source falls back on a
    default: a category name the chain does not know, a missing table cell,
    refused input. */
module Optional {

  datatype Option<+T> = None | Some(value: T)
}
