/** What several of the models use: an optional value, and the block number
    that stands for none. */
module Common {
  datatype Option<+T> = None | Some(value: T)

  const INVAL_BLK: nat := 0xffff_ffff_ffff_ffff
}
