/** Small value types shared by every module of the model. */
module Values {

  /** An optional value: a missing header, a missing download call, ... */
  datatype Option<+T> = None | Some(value: T)

  /** One octet of a downloaded stream. */
  newtype byte = x: int | 0 <= x < 256
}
