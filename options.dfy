/** Python's `None`-or-value results (`extract_region`, the verdict's `region`). */
module Options {

  datatype Option<+T> = None | Some(value: T)

}
