/** The nullable slots of the editor (`number | null`, `string | undefined`). */
module Wrappers {
  datatype Option<+T> = None | Some(value: T)
}
