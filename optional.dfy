/** The usual optional value: `None` stands for JavaScript's `undefined`, `null` or `NaN`
    wherever the tracker's code tests for them. */
module Optional {

  datatype Option<+T> = None | Some(value: T)
}
