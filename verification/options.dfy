/** The optional value used for chart tick labels: a label is either a year or blank. */
module Options {

  datatype Option<+T> = None | Some(value: T)
}
