/** Small shared vocabulary: the byte type of every buffer and an optional value. */
module Base {

  /** One octet of a `char` buffer. */
  newtype byte = x: int | 0 <= x < 256

  /** A nullable reference: `None` plays the role of `nullptr`. */
  datatype Option<+T> = None | Some(value: T)
}
