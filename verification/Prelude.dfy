/** What all parts share: bytes, texts, and results that may be missing. */
module Prelude {

  type Byte = b: int | 0 <= b < 256
  type Text = seq<Byte>

  /** The size of all blocks of a table file. */
  const BLOCK_SZ: nat := 32768

  datatype Option<+T> = None | Some(value: T)
}
