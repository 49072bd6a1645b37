/** Small types shared by every module. */
module Common {

  /** One more than the largest unsigned int. */
  const UINT_RANGE := 0x1_0000_0000

  datatype Option<+T> = None | Some(value: T)
}
