/** The optional value used wherever the pipeline may come up empty-handed:
    a translator that failed, a cell that is not a number, a column that is
    missing, an extraction that raised. */
module Wrappers {

  datatype Option<+T> = None | Some(value: T)
}
