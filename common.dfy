/** Small shared vocabulary: an optional value. */
module Common {

  /** `None` stands for JavaScript's `null`/`undefined` (and, for numbers, `NaN`). */
  datatype Option<+T> = None | Some(value: T)
}
