/** Types shared by several components. */
module Common {

  datatype Option<+T> = None | Some(value: T)

  type Positive = n: int | 0 < n witness 1
}
